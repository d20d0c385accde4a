/**
 * Uniform spatial grid: a row-major array of cells, each holding a list of entries
 * allocated from an ObjectPool, plus a table from object id to entry.
 *
 * Each entry lives in one slot of the entry pool; it is named by its slot index. The
 * `next` links of a cell's list are modelled by the order of the cell's `objects`
 * sequence (head first). Positions and sizes are integers.
 */
module SpatialGrid {
  import opened StdInt
  import opened MemoryPool

  const DEFAULT_CELL_SIZE: u32 := 64
  const MAX_OBJECTS_PER_CELL: u32 := 32
  const MAX_GRID_WIDTH: u32 := 256
  const MAX_GRID_HEIGHT: u32 := 256
  /** sizeof(GridObjectEntry) on the 32-bit target: two pointers, two uint32_t, a bool, padding. */
  const ENTRY_SIZE: u32 := 20

  /** What the grid reads of a GameObject: identity, id, transform position and flags. */
  datatype Entity = Entity(handle: nat, id: u32, hasTransform: bool, x: int, y: int, active: bool, isStatic: bool)

  /** GridObjectEntry without its `next` link. */
  datatype Entry = Entry(gameObject: nat, cellX: u32, cellY: u32, staticObject: bool)

  /** GridCell: `objects` is the entry list, head first. */
  datatype Cell = Cell(objects: seq<u32>, objectCount: u32, maxObjects: u32, dirty: bool)

  /** A cell as calloc and the creation loop leave it. */
  const EmptyCell := Cell([], 0, MAX_OBJECTS_PER_CELL, false)

  /** The row-major index cellY * gridWidth + cellX. */
  function CellIndex(cellX: nat, cellY: nat, gridWidth: nat): nat
  {
    Mul(cellY, gridWidth) + cellX
  }

  /** Valid coordinates index inside the gridWidth * gridHeight cells. */
  lemma CellIndexBound(cellX: nat, cellY: nat, gridWidth: nat, gridHeight: nat)
    requires cellX < gridWidth && cellY < gridHeight
    ensures CellIndex(cellX, cellY, gridWidth) < Mul(gridWidth, gridHeight)
  {
    MulIsProduct(cellY, gridWidth);
    MulIsProduct(gridWidth, gridHeight);
    MulLe(cellY + 1, gridHeight, gridWidth);
  }

  /** Distinct valid coordinate pairs have distinct cells. */
  lemma CellIndexInjective(x1: nat, y1: nat, x2: nat, y2: nat, gridWidth: nat)
    requires x1 < gridWidth && x2 < gridWidth
    requires CellIndex(x1, y1, gridWidth) == CellIndex(x2, y2, gridWidth)
    ensures x1 == x2 && y1 == y2
  {
    MulIsProduct(y1, gridWidth);
    MulIsProduct(y2, gridWidth);
    var d := CellIndex(x1, y1, gridWidth);
    DivModUnique(d, y1, gridWidth, x1);
    DivModUnique(d, y2, gridWidth, x2);
  }

  /** The number of cells as spatial_grid_create computes it, in uint32_t. */
  function TotalCells(gridWidth: u32, gridHeight: u32): (r: u32)
    ensures Mul(gridWidth, gridHeight) < TWO_TO_32 ==> r == Mul(gridWidth, gridHeight)
  {
    Wrap32(Mul(gridWidth, gridHeight))
  }

  /**
   * Whether spatial_grid_create as written returns a grid (when malloc and calloc succeed):
   * it checks for zero arguments and the entry pool, never the cell count.
   */
  function CreateAcceptsAsWritten(cellSize: u32, gridWidth: u32, gridHeight: u32, maxObjects: u32, block: u32): bool
  {
    cellSize != 0 && gridWidth != 0 && gridHeight != 0 && maxObjects != 0 &&
    InitOutcomeAsWritten(ENTRY_SIZE, maxObjects, block) == Ok
  }

  /**
   * As written, a 65536 x 65537 grid is created with 65536 cells, yet (0, 1) is a valid cell
   * whose index 65536 lies past them; the checked create refuses the grid.
   */
  lemma CreateOverrunsCells(block: u32)
    requires block != 0
    ensures CreateAcceptsAsWritten(1, 65536, 65537, 1, block)
    ensures TotalCells(65536, 65537) == 65536
    ensures 0 < 65536 && 1 < 65537 && CellIndex(0, 1, 65536) == 65536
    ensures Mul(65536, 65537) >= TWO_TO_32
  {
    MulIsProduct(65536, 65537);
    MulIsProduct(1, 65536);
  }

  /** The world extent gridSize * cellSize, computed in uint32_t as spatial_grid_create does. */
  function WorldExtent(gridSize: u32, cellSize: u32): (r: u32)
    ensures r <= Mul(gridSize, cellSize)
  {
    Wrap32(Mul(gridSize, cellSize))
  }

  /**
   * spatial_grid_world_to_cell on one axis: the cell of `world` after subtracting the
   * offset, or None outside [0, extent).
   */
  function AxisToCell(world: int, offset: int, extent: u32, cellSize: u32): (r: Option<u32>)
    requires cellSize > 0
    ensures r.Some? <==> 0 <= world - offset < extent
  {
    var adjusted := world - offset;
    if adjusted < 0 || adjusted >= extent then None
    else
      DivAtMost(adjusted, cellSize);
      Some(Div(adjusted, cellSize))
  }

  /** The cell found is the one whose span [c * cellSize, (c + 1) * cellSize) holds the position. */
  lemma AxisToCellBounds(world: int, offset: int, extent: u32, cellSize: u32)
    requires cellSize > 0 && AxisToCell(world, offset, extent, cellSize).Some?
    ensures var c := AxisToCell(world, offset, extent, cellSize).value;
      c * cellSize <= world - offset < (c + 1) * cellSize
  {
    var adjusted := world - offset;
    DivModIsEuclid(adjusted, cellSize);
    var q, r := adjusted / cellSize, adjusted % cellSize;
    assert adjusted == q * cellSize + r;
  }

  /** A cell found for a position inside the world is a valid cell. */
  lemma AxisToCellValid(world: int, offset: int, gridSize: u32, cellSize: u32)
    requires cellSize > 0 && AxisToCell(world, offset, WorldExtent(gridSize, cellSize), cellSize).Some?
    ensures AxisToCell(world, offset, WorldExtent(gridSize, cellSize), cellSize).value < gridSize
  {
    var adjusted := world - offset;
    DivBelowMul(adjusted, gridSize, cellSize);
  }

  /** Floor division is monotone, so a position between two others has its cell between theirs. */
  lemma AxisToCellMonotone(lo: int, w: int, offset: int, extent: u32, cellSize: u32)
    requires cellSize > 0 && lo <= w
    requires AxisToCell(lo, offset, extent, cellSize).Some? && AxisToCell(w, offset, extent, cellSize).Some?
    ensures AxisToCell(lo, offset, extent, cellSize).value <= AxisToCell(w, offset, extent, cellSize).value
  {
    var a, b := lo - offset, w - offset;
    AxisToCellBounds(lo, offset, extent, cellSize);
    AxisToCellBounds(w, offset, extent, cellSize);
    var qa, qb := AxisToCell(lo, offset, extent, cellSize).value, AxisToCell(w, offset, extent, cellSize).value;
    if qa > qb {
      MulLe(qb + 1, qa, cellSize);
    }
  }

  // ---- Sums over the cells ----

  /** The sum of the cells' objectCount fields. */
  function CountSum(cells: seq<Cell>): nat
  {
    if cells == [] then 0 else CountSum(cells[..|cells| - 1]) + cells[|cells| - 1].objectCount
  }

  /** The number of cells with objectCount > 0. */
  function NonEmptyCells(cells: seq<Cell>): nat
  {
    if cells == [] then 0 else NonEmptyCells(cells[..|cells| - 1]) + (if cells[|cells| - 1].objectCount > 0 then 1 else 0)
  }

  /** Replacing one cell changes the sum by the difference of its counts. */
  lemma {:induction false} CountSumUpdate(cells: seq<Cell>, i: nat, c: Cell)
    requires i < |cells|
    ensures CountSum(cells[i := c]) == CountSum(cells) - cells[i].objectCount + c.objectCount
    ensures cells[i].objectCount <= CountSum(cells)
  {
    var n := |cells| - 1;
    assert cells[i := c][..n] == if i == n then cells[..n] else cells[..n][i := c];
    if i < n {
      CountSumUpdate(cells[..n], i, c);
    }
  }

  /** Replacing one cell changes the nonempty count by whether it and its replacement are empty. */
  lemma {:induction false} NonEmptyCellsUpdate(cells: seq<Cell>, i: nat, c: Cell)
    requires i < |cells|
    ensures NonEmptyCells(cells[i := c]) ==
      NonEmptyCells(cells) - (if cells[i].objectCount > 0 then 1 else 0) + (if c.objectCount > 0 then 1 else 0)
  {
    var n := |cells| - 1;
    assert cells[i := c][..n] == if i == n then cells[..n] else cells[..n][i := c];
    if i < n {
      NonEmptyCellsUpdate(cells[..n], i, c);
    }
  }

  /** Each nonempty cell holds at least one object. */
  lemma {:induction false} NonEmptyAtMostCount(cells: seq<Cell>)
    ensures NonEmptyCells(cells) <= CountSum(cells)
  {
    if cells != [] {
      NonEmptyAtMostCount(cells[..|cells| - 1]);
    }
  }

  /** An all-empty cell array. */
  lemma {:induction false} EmptyCellsSums(n: nat)
    ensures CountSum(seq(n, _ => EmptyCell)) == 0 && NonEmptyCells(seq(n, _ => EmptyCell)) == 0
  {
    if n > 0 {
      assert seq(n, _ => EmptyCell)[..n - 1] == seq(n - 1, _ => EmptyCell);
      EmptyCellsSums(n - 1);
    }
  }

  // ---- Lists ----

  predicate Distinct(s: seq<u32>)
  {
    forall j, k :: 0 <= j < k < |s| ==> s[j] != s[k]
  }

  /** The list with its first occurrence of `x` unlinked. */
  function RemoveFirst(s: seq<u32>, x: u32): seq<u32>
  {
    if s == [] then [] else if s[0] == x then s[1..] else [s[0]] + RemoveFirst(s[1..], x)
  }

  /** Unlinking keeps the others in order: the list is the result with `x` put back at its position. */
  lemma {:induction false} RemoveFirstSplit(s: seq<u32>, x: u32, k: nat)
    requires k < |s| && s[k] == x && x !in s[..k]
    ensures RemoveFirst(s, x) == s[..k] + s[k + 1..]
  {
    if k > 0 {
      assert s[1..][..k - 1] == s[..k][1..];
      RemoveFirstSplit(s[1..], x, k - 1);
      assert s[..k] == [s[0]] + s[1..][..k - 1];
    }
  }

  /** Unlinking from a list without repetitions removes exactly `x`. */
  lemma {:induction false} RemoveFirstElems(s: seq<u32>, x: u32)
    requires Distinct(s) && x in s
    ensures Distinct(RemoveFirst(s, x)) && |RemoveFirst(s, x)| == |s| - 1
    ensures forall y :: y in RemoveFirst(s, x) <==> y in s && y != x
  {
    if s[0] != x {
      assert Distinct(s[1..]) by {
        forall j, k | 0 <= j < k < |s| - 1 ensures s[1..][j] != s[1..][k] {
          assert s[1..][j] == s[j + 1] && s[1..][k] == s[k + 1];
        }
      }
      assert s[0] !in s[1..];
      RemoveFirstElems(s[1..], x);
    } else {
      assert x !in s[1..];
    }
  }

  /** Unlinking an absent entry leaves the list as it is. */
  lemma {:induction false} RemoveFirstAbsent(s: seq<u32>, x: u32)
    requires x !in s
    ensures RemoveFirst(s, x) == s
  {
    if s != [] {
      RemoveFirstAbsent(s[1..], x);
    }
  }

  // ---- The grid invariant on values ----

  /** The cell an entry names. */
  function EntryCell(e: Entry, gridWidth: nat): nat
  {
    CellIndex(e.cellX, e.cellY, gridWidth)
  }

  /**
   * What spatial_grid_add_object and spatial_grid_remove_object change: the cells, the
   * contents of the entry pool's slots (by slot index), the id table (None for NULL) and
   * the totalObjects and cellsWithObjects statistics.
   */
  datatype Store = Store(cells: seq<Cell>, entries: seq<Entry>, objectLookup: seq<Option<u32>>,
                         totalObjects: u32, cellsWithObjects: u32)

  /** Each cell's objectCount is its list's length, and no list repeats a slot. */
  ghost predicate CountsMatch(cells: seq<Cell>)
  {
    forall i :: 0 <= i < |cells| ==> cells[i].objectCount == |cells[i].objects| && Distinct(cells[i].objects)
  }

  /** Every live slot names a valid cell and is listed in that cell. */
  ghost predicate LiveListed(cells: seq<Cell>, entries: seq<Entry>, live: set<u32>, gridWidth: nat, gridHeight: nat)
  {
    forall s :: s in live ==>
      s < |entries| && entries[s].cellX < gridWidth && entries[s].cellY < gridHeight &&
      EntryCell(entries[s], gridWidth) < |cells| && s in cells[EntryCell(entries[s], gridWidth)].objects
  }

  /** Every slot of `list` is live and names cell i. */
  ghost predicate ListedIn(list: seq<u32>, entries: seq<Entry>, live: set<u32>, i: nat, gridWidth: nat)
  {
    forall s :: s in list ==> s in live && s < |entries| && EntryCell(entries[s], gridWidth) == i
  }

  /** Every listed slot is live and names the cell that lists it. */
  ghost predicate ListedLive(cells: seq<Cell>, entries: seq<Entry>, live: set<u32>, gridWidth: nat)
  {
    forall i :: 0 <= i < |cells| ==> ListedIn(cells[i].objects, entries, live, i, gridWidth)
  }

  /** Every id-table entry refers to a live slot, and no two ids share one. */
  ghost predicate LookupValid(lookup: seq<Option<u32>>, live: set<u32>)
  {
    (forall id :: 0 <= id < |lookup| && lookup[id].Some? ==> lookup[id].value in live) &&
    (forall i, j :: 0 <= i < |lookup| && 0 <= j < |lookup| && lookup[i].Some? && lookup[i] == lookup[j] ==> i == j)
  }

  /**
   * The grid invariant: the lists and the entries agree, the id table points at live
   * entries, totalObjects is both the sum of the cells' counts and the number of live
   * entries, and cellsWithObjects counts the nonempty cells.
   */
  ghost predicate GridInv(st: Store, live: set<u32>, gridWidth: nat, gridHeight: nat)
  {
    CountsMatch(st.cells) && LiveListed(st.cells, st.entries, live, gridWidth, gridHeight) &&
    ListedLive(st.cells, st.entries, live, gridWidth) && LookupValid(st.objectLookup, live) &&
    st.totalObjects == CountSum(st.cells) && st.totalObjects == |live| &&
    st.cellsWithObjects == NonEmptyCells(st.cells)
  }

  /** A cell after head insertion of slot `s`, with the dirty mark spatial_grid_add_object sets. */
  function LinkCell(c: Cell, s: u32): (r: Cell)
    requires c.objectCount < UINT32_MAX
    ensures r.objects == [s] + c.objects && r.objectCount == c.objectCount + 1
    ensures r.dirty <==> c.dirty || r.objectCount > c.maxObjects
  {
    var count := c.objectCount + 1;
    Cell([s] + c.objects, count, c.maxObjects, c.dirty || count > c.maxObjects)
  }

  /** A cell after slot `s` is unlinked; a cell that empties is no longer dirty. */
  function UnlinkCell(c: Cell, s: u32): (r: Cell)
    requires c.objectCount > 0
    ensures r.objects == RemoveFirst(c.objects, s) && r.objectCount == c.objectCount - 1
    ensures r.objectCount == 0 ==> !r.dirty
  {
    var count := c.objectCount - 1;
    Cell(RemoveFirst(c.objects, s), count, c.maxObjects, if count == 0 then false else c.dirty)
  }

  /** Slot `s` and the entry's cell exist, and no counter is at UINT32_MAX. */
  predicate Addable(st: Store, s: u32, e: Entry, gridWidth: nat)
  {
    s < |st.entries| && EntryCell(e, gridWidth) < |st.cells| &&
    st.cells[EntryCell(e, gridWidth)].objectCount < UINT32_MAX &&
    st.totalObjects < UINT32_MAX && st.cellsWithObjects < UINT32_MAX
  }

  /**
   * What spatial_grid_add_object does once it holds slot `s` for entry `e`: link `s` at the
   * head of the entry's cell, count one more object (and one more nonempty cell if it was
   * empty), and record `s` under the id when the id fits the table.
   */
  function AddEntry(st: Store, s: u32, e: Entry, id: u32, gridWidth: nat): (r: Store)
    requires Addable(st, s, e, gridWidth)
    ensures var i := EntryCell(e, gridWidth);
      |r.cells| == |st.cells| && r.cells[i].objects == [s] + st.cells[i].objects &&
      r.cells[i].objectCount == st.cells[i].objectCount + 1 &&
      (forall j :: 0 <= j < |st.cells| && j != i ==> r.cells[j] == st.cells[j]) &&
      r.entries == st.entries[s := e] && r.totalObjects == st.totalObjects + 1 &&
      r.cellsWithObjects == st.cellsWithObjects + (if st.cells[i].objectCount == 0 then 1 else 0)
    ensures id < |st.objectLookup| ==> r.objectLookup == st.objectLookup[id := Some(s)]
    ensures id >= |st.objectLookup| ==> r.objectLookup == st.objectLookup
  {
    var i := EntryCell(e, gridWidth);
    var c := LinkCell(st.cells[i], s);
    Store(st.cells[i := c], st.entries[s := e],
          if id < |st.objectLookup| then st.objectLookup[id := Some(s)] else st.objectLookup,
          st.totalObjects + 1, if c.objectCount == 1 then st.cellsWithObjects + 1 else st.cellsWithObjects)
  }

  /** The entry slot the id table holds for `id`, when it holds one. */
  function LookupSlot(st: Store, id: u32): Option<u32>
  {
    if id < |st.objectLookup| then st.objectLookup[id] else None
  }

  /** The id's slot holds an entry whose cell exists and lists at least that entry. */
  predicate Removable(st: Store, id: u32, gridWidth: nat)
  {
    LookupSlot(st, id).Some? && LookupSlot(st, id).value < |st.entries| &&
    EntryCell(st.entries[LookupSlot(st, id).value], gridWidth) < |st.cells| &&
    st.cells[EntryCell(st.entries[LookupSlot(st, id).value], gridWidth)].objectCount > 0 &&
    st.totalObjects > 0 &&
    (st.cells[EntryCell(st.entries[LookupSlot(st, id).value], gridWidth)].objectCount == 1 ==> st.cellsWithObjects > 0)
  }

  /**
   * What spatial_grid_remove_object does for a tracked id: unlink its slot from the cell
   * the entry names, count one object fewer (and one nonempty cell fewer if the cell
   * empties), and clear the id's table entry.
   */
  function RemoveEntry(st: Store, id: u32, gridWidth: nat): (r: Store)
    requires Removable(st, id, gridWidth)
    ensures var s := LookupSlot(st, id).value; var i := EntryCell(st.entries[s], gridWidth);
      |r.cells| == |st.cells| && r.cells[i].objects == RemoveFirst(st.cells[i].objects, s) &&
      r.cells[i].objectCount == st.cells[i].objectCount - 1 &&
      (forall j :: 0 <= j < |st.cells| && j != i ==> r.cells[j] == st.cells[j]) &&
      r.entries == st.entries && r.objectLookup == st.objectLookup[id := None] &&
      r.totalObjects == st.totalObjects - 1 &&
      r.cellsWithObjects == st.cellsWithObjects - (if st.cells[i].objectCount == 1 then 1 else 0)
  {
    var s := LookupSlot(st, id).value;
    var i := EntryCell(st.entries[s], gridWidth);
    var c := UnlinkCell(st.cells[i], s);
    Store(st.cells[i := c], st.entries, st.objectLookup[id := None],
          st.totalObjects - 1, if c.objectCount == 0 then st.cellsWithObjects - 1 else st.cellsWithObjects)
  }

  /** A fresh grid: empty cells, nothing live, an empty id table, zero statistics. */
  lemma EmptyGridInv(n: nat, entries: seq<Entry>, lookupSize: nat, gridWidth: nat, gridHeight: nat)
    ensures GridInv(Store(seq(n, _ => EmptyCell), entries, seq(lookupSize, _ => None), 0, 0), {}, gridWidth, gridHeight)
  {
    EmptyCellsSums(n);
  }

  /** Head insertion of a slot not yet listed keeps the counts and the lists repetition-free. */
  lemma LinkKeepsCounts(cells: seq<Cell>, i: nat, s: u32)
    requires CountsMatch(cells) && i < |cells| && s !in cells[i].objects && cells[i].objectCount < UINT32_MAX
    ensures CountsMatch(cells[i := LinkCell(cells[i], s)])
  {
    var c := LinkCell(cells[i], s);
    assert Distinct(c.objects) by {
      forall j, k | 0 <= j < k < |c.objects| ensures c.objects[j] != c.objects[k] {
        assert c.objects[k] == cells[i].objects[k - 1];
        if j > 0 {
          assert c.objects[j] == cells[i].objects[j - 1];
        }
      }
    }
  }

  /** Linking a newly live slot into the cell its new entry names keeps every live slot listed. */
  lemma LinkKeepsLiveListed(cells: seq<Cell>, entries: seq<Entry>, live: set<u32>, gridWidth: nat, gridHeight: nat,
                            s: u32, e: Entry, c: Cell)
    requires LiveListed(cells, entries, live, gridWidth, gridHeight) && ListedLive(cells, entries, live, gridWidth)
    requires s !in live && s < |entries| && e.cellX < gridWidth && e.cellY < gridHeight
    requires EntryCell(e, gridWidth) < |cells| && c.objects == [s] + cells[EntryCell(e, gridWidth)].objects
    ensures LiveListed(cells[EntryCell(e, gridWidth) := c], entries[s := e], live + {s}, gridWidth, gridHeight)
  {
    var i := EntryCell(e, gridWidth);
    var cells', entries' := cells[i := c], entries[s := e];
    forall t | t in live + {s}
      ensures t < |entries'| && entries'[t].cellX < gridWidth && entries'[t].cellY < gridHeight
      ensures EntryCell(entries'[t], gridWidth) < |cells'| && t in cells'[EntryCell(entries'[t], gridWidth)].objects
    {
      if t != s {
        assert entries'[t] == entries[t];
        var j := EntryCell(entries[t], gridWidth);
        assert t in cells[j].objects;
        assert j == i ==> t in c.objects;
      }
    }
  }

  /** Linking a newly live slot into the cell its new entry names keeps every listed slot live. */
  lemma LinkKeepsListedLive(cells: seq<Cell>, entries: seq<Entry>, live: set<u32>, gridWidth: nat,
                            s: u32, e: Entry, c: Cell)
    requires ListedLive(cells, entries, live, gridWidth)
    requires s !in live && s < |entries| && EntryCell(e, gridWidth) < |cells|
    requires c.objects == [s] + cells[EntryCell(e, gridWidth)].objects
    ensures ListedLive(cells[EntryCell(e, gridWidth) := c], entries[s := e], live + {s}, gridWidth)
  {
    var i := EntryCell(e, gridWidth);
    var cells', entries' := cells[i := c], entries[s := e];
    forall j, t | 0 <= j < |cells'| && t in cells'[j].objects
      ensures t in live + {s} && t < |entries'| && EntryCell(entries'[t], gridWidth) == j
    {
      if t == s {
        if j != i {
          assert false;
        }
        assert entries'[t] == e;
      } else {
        assert t in cells[j].objects by {
          if j == i {
            assert t in [s] + cells[i].objects;
          }
        }
        assert entries'[t] == entries[t];
      }
    }
  }

  /** Unlinking a live slot from its cell keeps the counts and the lists repetition-free. */
  lemma UnlinkKeepsCounts(cells: seq<Cell>, i: nat, s: u32)
    requires CountsMatch(cells) && i < |cells| && s in cells[i].objects
    ensures cells[i].objectCount > 0
    ensures CountsMatch(cells[i := UnlinkCell(cells[i], s)])
  {
    RemoveFirstElems(cells[i].objects, s);
  }

  /** Unlinking a live slot from its cell and freeing it keeps the others listed. */
  lemma UnlinkKeepsLiveListed(cells: seq<Cell>, entries: seq<Entry>, live: set<u32>, gridWidth: nat, gridHeight: nat,
                              s: u32, c: Cell)
    requires CountsMatch(cells) && LiveListed(cells, entries, live, gridWidth, gridHeight) && s in live
    requires c.objects == RemoveFirst(cells[EntryCell(entries[s], gridWidth)].objects, s)
    ensures LiveListed(cells[EntryCell(entries[s], gridWidth) := c], entries, live - {s}, gridWidth, gridHeight)
  {
    var i := EntryCell(entries[s], gridWidth);
    RemoveFirstElems(cells[i].objects, s);
  }

  /** Unlinking a live slot from its cell and freeing it keeps every listed slot live. */
  lemma UnlinkKeepsListedLive(cells: seq<Cell>, entries: seq<Entry>, live: set<u32>, gridWidth: nat, gridHeight: nat,
                              s: u32, c: Cell)
    requires CountsMatch(cells) && LiveListed(cells, entries, live, gridWidth, gridHeight)
    requires ListedLive(cells, entries, live, gridWidth) && s in live
    requires c.objects == RemoveFirst(cells[EntryCell(entries[s], gridWidth)].objects, s)
    ensures ListedLive(cells[EntryCell(entries[s], gridWidth) := c], entries, live - {s}, gridWidth)
  {
    var i := EntryCell(entries[s], gridWidth);
    var cells' := cells[i := c];
    RemoveFirstElems(cells[i].objects, s);
    forall j, t | 0 <= j < |cells'| && t in cells'[j].objects
      ensures t in live - {s} && t < |entries| && EntryCell(entries[t], gridWidth) == j
    {
      if j == i {
        assert t in cells[i].objects && t != s;
      } else {
        assert t in cells[j].objects;
      }
    }
  }

  /** Recording a newly live slot under an id keeps the table valid. */
  lemma LookupAddKeepsValid(lookup: seq<Option<u32>>, live: set<u32>, id: nat, s: u32)
    requires LookupValid(lookup, live) && s !in live && id < |lookup|
    ensures LookupValid(lookup[id := Some(s)], live + {s})
  {
    var lookup' := lookup[id := Some(s)];
    forall i, j | 0 <= i < |lookup'| && 0 <= j < |lookup'| && lookup'[i].Some? && lookup'[i] == lookup'[j]
      ensures i == j
    {
      if i != id && j != id {
        assert lookup[i] == lookup[j];
      }
    }
  }

  /** Clearing an id's entry and freeing its slot keeps the table valid. */
  lemma LookupRemoveKeepsValid(lookup: seq<Option<u32>>, live: set<u32>, id: nat)
    requires LookupValid(lookup, live) && id < |lookup| && lookup[id].Some?
    ensures LookupValid(lookup[id := None], live - {lookup[id].value})
  {
    forall j | 0 <= j < |lookup| && j != id && lookup[j].Some?
      ensures lookup[j].value != lookup[id].value
    {
    }
  }

  /** spatial_grid_add_object keeps the grid invariant, with the new slot live. */
  lemma {:induction false} AddKeepsInv(st: Store, live: set<u32>, gridWidth: nat, gridHeight: nat, s: u32, e: Entry, id: u32)
    requires GridInv(st, live, gridWidth, gridHeight)
    requires s !in live && s < |st.entries| && e.cellX < gridWidth && e.cellY < gridHeight
    requires EntryCell(e, gridWidth) < |st.cells| && |live| < UINT32_MAX
    ensures Addable(st, s, e, gridWidth)
    ensures GridInv(AddEntry(st, s, e, id, gridWidth), live + {s}, gridWidth, gridHeight)
  {
    var i := EntryCell(e, gridWidth);
    CountSumUpdate(st.cells, i, st.cells[i]);
    NonEmptyAtMostCount(st.cells);
    assert s !in st.cells[i].objects;
    var c := LinkCell(st.cells[i], s);
    LinkKeepsCounts(st.cells, i, s);
    LinkKeepsLiveListed(st.cells, st.entries, live, gridWidth, gridHeight, s, e, c);
    LinkKeepsListedLive(st.cells, st.entries, live, gridWidth, s, e, c);
    CountSumUpdate(st.cells, i, c);
    NonEmptyCellsUpdate(st.cells, i, c);
    if id < |st.objectLookup| {
      LookupAddKeepsValid(st.objectLookup, live, id, s);
    }
  }

  /** Under the grid invariant every tracked id's slot is live and its entry can be unlinked. */
  lemma TrackedRemovable(st: Store, live: set<u32>, gridWidth: nat, gridHeight: nat, id: u32)
    requires GridInv(st, live, gridWidth, gridHeight) && LookupSlot(st, id).Some?
    ensures LookupSlot(st, id).value in live && Removable(st, id, gridWidth)
  {
    var s := LookupSlot(st, id).value;
    var i := EntryCell(st.entries[s], gridWidth);
    assert s in st.cells[i].objects;
    CountSumUpdate(st.cells, i, st.cells[i]);
    assert NonEmptyCells(st.cells) > 0 by {
      NonEmptyCellsUpdate(st.cells, i, Cell([], 0, 0, false));
    }
  }

  /** spatial_grid_remove_object keeps the grid invariant, with the id's slot no longer live. */
  lemma {:induction false} RemoveKeepsInv(st: Store, live: set<u32>, gridWidth: nat, gridHeight: nat, id: u32)
    requires GridInv(st, live, gridWidth, gridHeight) && LookupSlot(st, id).Some?
    ensures Removable(st, id, gridWidth) && LookupSlot(st, id).value in live
    ensures GridInv(RemoveEntry(st, id, gridWidth), live - {LookupSlot(st, id).value}, gridWidth, gridHeight)
  {
    var s := LookupSlot(st, id).value;
    var i := EntryCell(st.entries[s], gridWidth);
    TrackedRemovable(st, live, gridWidth, gridHeight, id);
    UnlinkKeepsCounts(st.cells, i, s);
    var c := UnlinkCell(st.cells[i], s);
    UnlinkKeepsLiveListed(st.cells, st.entries, live, gridWidth, gridHeight, s, c);
    UnlinkKeepsListedLive(st.cells, st.entries, live, gridWidth, gridHeight, s, c);
    CountSumUpdate(st.cells, i, c);
    NonEmptyCellsUpdate(st.cells, i, c);
    LookupRemoveKeepsValid(st.objectLookup, live, id);
  }

  /**
   * The move of spatial_grid_update_object: removing a tracked id and adding its slot back
   * for a different cell lists the slot in the new cell only, keeps the set of live slots,
   * the id table and totalObjects, and keeps the grid invariant.
   */
  lemma MoveRelinks(st: Store, live: set<u32>, gridWidth: nat, gridHeight: nat, id: u32, e: Entry)
    requires GridInv(st, live, gridWidth, gridHeight) && LookupSlot(st, id).Some?
    requires e.cellX < gridWidth && e.cellY < gridHeight && EntryCell(e, gridWidth) < |st.cells|
    requires EntryCell(e, gridWidth) != EntryCell(st.entries[LookupSlot(st, id).value], gridWidth)
    ensures Removable(st, id, gridWidth)
    ensures var s := LookupSlot(st, id).value; Addable(RemoveEntry(st, id, gridWidth), s, e, gridWidth)
    ensures var s := LookupSlot(st, id).value;
      var r := AddEntry(RemoveEntry(st, id, gridWidth), s, e, id, gridWidth);
      s in r.cells[EntryCell(e, gridWidth)].objects &&
      s !in r.cells[EntryCell(st.entries[s], gridWidth)].objects &&
      r.entries == st.entries[s := e] && r.objectLookup == st.objectLookup &&
      r.totalObjects == st.totalObjects && GridInv(r, live, gridWidth, gridHeight)
  {
    var s := LookupSlot(st, id).value;
    var i := EntryCell(st.entries[s], gridWidth);
    RemoveKeepsInv(st, live, gridWidth, gridHeight, id);
    var mid := RemoveEntry(st, id, gridWidth);
    assert |live - {s}| < UINT32_MAX;
    AddKeepsInv(mid, live - {s}, gridWidth, gridHeight, s, e, id);
    RemoveAddBack(live, s);
    RemoveFirstElems(st.cells[i].objects, s);
    LookupRestore(st.objectLookup, id, s);
  }

  /** Clearing an id-table entry and writing its old slot back restores the table. */
  lemma LookupRestore(lookup: seq<Option<u32>>, id: nat, s: u32)
    requires id < |lookup| && lookup[id] == Some(s)
    ensures lookup[id := None][id := Some(s)] == lookup
  {
    assert lookup[id := None][id := Some(s)] == lookup[id := Some(s)];
  }

  /**
   * Adding an untracked object under an id that fits the table and then removing it
   * restores every cell's list and count, the id table and both statistics.
   */
  lemma AddRemoveRoundTrip(st: Store, s: u32, e: Entry, id: u32, gridWidth: nat)
    requires Addable(st, s, e, gridWidth)
    requires id < |st.objectLookup| && st.objectLookup[id].None?
    ensures Removable(AddEntry(st, s, e, id, gridWidth), id, gridWidth)
    ensures var r := RemoveEntry(AddEntry(st, s, e, id, gridWidth), id, gridWidth);
      |r.cells| == |st.cells| &&
      (forall j :: 0 <= j < |st.cells| ==> r.cells[j].objects == st.cells[j].objects && r.cells[j].objectCount == st.cells[j].objectCount) &&
      r.objectLookup == st.objectLookup && r.totalObjects == st.totalObjects && r.cellsWithObjects == st.cellsWithObjects
  {
    var a := AddEntry(st, s, e, id, gridWidth);
    var i := EntryCell(e, gridWidth);
    assert a.entries[s] == e;
    assert RemoveFirst(a.cells[i].objects, s) == st.cells[i].objects;
    assert a.objectLookup[id := None] == st.objectLookup;
  }

  /** Taking a live slot out of the live set and putting it back gives the same set. */
  lemma RemoveAddBack(live: set<u32>, s: u32)
    requires s in live
    ensures (live - {s}) + {s} == live
  {
  }

  /** Putting a slot that is not live into the live set and taking it out again gives the same set. */
  lemma AddRemoveBack(live: set<u32>, s: u32)
    requires s !in live
    ensures (live + {s}) - {s} == live
  {
  }

  /** The cells the creation loop builds: every cell empty with maxObjects = MAX_OBJECTS_PER_CELL. */
  method NewCells(totalCells: nat) returns (cells: seq<Cell>)
    ensures cells == seq(totalCells, _ => EmptyCell)
  {
    cells := [];
    for i := 0 to totalCells
      invariant cells == seq(i, _ => EmptyCell)
    {
      cells := cells + [EmptyCell];
    }
  }
  // ---- Circle queries on values ----

  /** The circle of a query; coordinates are integers. */
  datatype Circle = Circle(centerX: int, centerY: int, radius: int)

  /** What a circle query scans: the grid's cells and entries, the objects' current state, the filter. */
  datatype Scan = Scan(cells: seq<Cell>, entries: seq<Entry>, gridWidth: nat, world: map<nat, Entity>,
                       circle: Circle, includeStatic: bool)

  /** d * d, kept behind Mul so the scan lemmas stay linear. */
  function Sq(d: int): nat
  {
    var a: nat := if d < 0 then -d else d;
    Mul(a, a)
  }

  /**
   * The per-entry test of spatial_grid_query_circle: the object an entry refers to is active,
   * not filtered as static, and inside the circle. An object missing from `world` is never a hit.
   */
  predicate Hit(sc: Scan, e: Entry)
  {
    e.gameObject in sc.world &&
    var o := sc.world[e.gameObject];
    o.active && (sc.includeStatic || !e.staticObject) &&
    Sq(o.x - sc.circle.centerX) + Sq(o.y - sc.circle.centerY) <= Sq(sc.circle.radius)
  }

  /** What scanning one slot contributes to the results. */
  function SlotHits(sc: Scan, s: u32): seq<nat>
  {
    if s < |sc.entries| && Hit(sc, sc.entries[s]) then [sc.entries[s].gameObject] else []
  }

  /** The objects a scan of the first k slots of a list reports, in list order. */
  function ListHitsUpTo(sc: Scan, list: seq<u32>, k: nat): seq<nat>
    requires k <= |list|
  {
    if k == 0 then [] else ListHitsUpTo(sc, list, k - 1) + SlotHits(sc, list[k - 1])
  }

  /** The objects a scan of a whole list reports. */
  function ListHits(sc: Scan, list: seq<u32>): seq<nat>
  {
    ListHitsUpTo(sc, list, |list|)
  }

  /** The objects a scan of cell `i` reports. */
  function CellHits(sc: Scan, i: nat): seq<nat>
  {
    if i < |sc.cells| then ListHits(sc, sc.cells[i].objects) else []
  }

  /** The cells of row y, columns x0 .. x1-1, in scan order. */
  function RowCells(y: nat, x0: nat, x1: nat, gridWidth: nat): seq<nat>
    decreases x1
  {
    if x1 <= x0 then [] else RowCells(y, x0, x1 - 1, gridWidth) + [CellIndex(x1 - 1, y, gridWidth)]
  }

  /** The cells of rows y0 .. y1-1, columns x0 .. x1-1, row by row. */
  function RectCells(x0: nat, x1: nat, y0: nat, y1: nat, gridWidth: nat): seq<nat>
    decreases y1
  {
    if y1 <= y0 then [] else RectCells(x0, x1, y0, y1 - 1, gridWidth) + RowCells(y1 - 1, x0, x1, gridWidth)
  }

  /** The cells of the box (minCellX, minCellY, maxCellX, maxCellY), bounds included, row by row. */
  function BoxCells(box: (u32, u32, u32, u32), gridWidth: nat): seq<nat>
  {
    RectCells(box.0, box.2 as nat + 1, box.1, box.3 as nat + 1, gridWidth)
  }

  /** The objects a scan of the cells `cs` reports, cell by cell. */
  function CellsHits(sc: Scan, cs: seq<nat>): seq<nat>
  {
    if cs == [] then [] else CellsHits(sc, cs[..|cs| - 1]) + CellHits(sc, cs[|cs| - 1])
  }

  /** The first n elements of s, or all of s. */
  function Take(s: seq<nat>, n: nat): (r: seq<nat>)
    ensures |r| <= n
    ensures |s| <= n ==> r == s
  {
    if |s| <= n then s else s[..n]
  }

  /** Once n results are found, later candidates do not change the results. */
  lemma TakeFull(a: seq<nat>, b: seq<nat>, n: nat)
    requires |Take(a, n)| == n && |a| <= |b| && b[..|a|] == a
    ensures Take(b, n) == Take(a, n)
  {
    assert b[..n] == b[..|a|][..n];
  }

  /** Below n results, one more candidate is appended. */
  lemma TakeAppend(a: seq<nat>, b: seq<nat>, n: nat)
    requires |Take(a, n)| < n
    ensures Take(a, n) == a
    ensures |a + b| <= n ==> Take(a + b, n) == a + b
  {
  }

  /** Some entry of `list` is a hit for object h. */
  ghost predicate ListWitness(sc: Scan, list: seq<u32>, h: nat)
  {
    exists s :: s in list && s < |sc.entries| && Hit(sc, sc.entries[s]) && sc.entries[s].gameObject == h
  }

  /** Some entry listed in some cell is a hit for object h. */
  ghost predicate Witnessed(sc: Scan, h: nat)
  {
    exists i :: 0 <= i < |sc.cells| && ListWitness(sc, sc.cells[i].objects, h)
  }

  /** Every object a list scan reports comes from a hit entry of that list. */
  lemma {:induction false} ListHitsSound(sc: Scan, list: seq<u32>, k: nat, h: nat)
    requires k <= |list| && h in ListHitsUpTo(sc, list, k)
    ensures ListWitness(sc, list, h)
  {
    if k == 0 {
      assert false;
    }
    if h in ListHitsUpTo(sc, list, k - 1) {
      ListHitsSound(sc, list, k - 1, h);
    } else {
      assert list[k - 1] in list;
    }
  }

  /** Every object a scan of some cells reports comes from a hit entry listed in one of them. */
  lemma {:induction false} CellsHitsSound(sc: Scan, cs: seq<nat>, h: nat)
    requires h in CellsHits(sc, cs)
    ensures Witnessed(sc, h)
  {
    if cs == [] {
      assert false;
    }
    var n := |cs| - 1;
    if h in CellsHits(sc, cs[..n]) {
      CellsHitsSound(sc, cs[..n], h);
    } else {
      var i := cs[n];
      assert i < |sc.cells| && h in ListHits(sc, sc.cells[i].objects);
      ListHitsSound(sc, sc.cells[i].objects, |sc.cells[i].objects|, h);
    }
  }

  /** Soundness of a circle query: every result is a hit entry listed in some cell. */
  lemma QueryResultSound(sc: Scan, cs: seq<nat>, n: nat, h: nat)
    requires h in Take(CellsHits(sc, cs), n)
    ensures Witnessed(sc, h)
  {
    var hits := CellsHits(sc, cs);
    if |hits| > n {
      assert h in hits by {
        var k :| 0 <= k < n && hits[..n][k] == h;
        assert hits[k] == h;
      }
    }
    CellsHitsSound(sc, cs, h);
  }

  /** A hit entry among the first k slots of a list is reported by a scan of them. */
  lemma {:induction false} ListHitsComplete(sc: Scan, list: seq<u32>, k: nat, j: nat)
    requires j < k <= |list| && list[j] < |sc.entries| && Hit(sc, sc.entries[list[j]])
    ensures sc.entries[list[j]].gameObject in ListHitsUpTo(sc, list, k)
  {
    if j < k - 1 {
      ListHitsComplete(sc, list, k - 1, j);
    }
  }

  /** A hit entry listed in one of the cells is reported by a scan of those cells. */
  lemma {:induction false} CellsHitsComplete(sc: Scan, cs: seq<nat>, i: nat, s: u32)
    requires i in cs && i < |sc.cells|
    requires s in sc.cells[i].objects && s < |sc.entries| && Hit(sc, sc.entries[s])
    ensures sc.entries[s].gameObject in CellsHits(sc, cs)
  {
    var n := |cs| - 1;
    if cs[n] != i {
      assert i in cs[..n] by {
        var k :| 0 <= k < |cs| && cs[k] == i;
        assert cs[..n][k] == i;
      }
      CellsHitsComplete(sc, cs[..n], i, s);
    } else {
      var list := sc.cells[i].objects;
      var j :| 0 <= j < |list| && list[j] == s;
      ListHitsComplete(sc, list, |list|, j);
    }
  }

  /** A live entry whose cell is in the rectangle and that is a hit is found by a scan of the rectangle. */
  lemma RectHitFound(st: Store, live: set<u32>, gridWidth: nat, gridHeight: nat, sc: Scan,
                     x0: nat, x1: nat, y0: nat, y1: nat, s: u32)
    requires LiveListed(st.cells, st.entries, live, gridWidth, gridHeight) && s in live
    requires sc.cells == st.cells && sc.entries == st.entries && sc.gridWidth == gridWidth
    requires x0 <= st.entries[s].cellX < x1 && y0 <= st.entries[s].cellY < y1 && Hit(sc, st.entries[s])
    ensures st.entries[s].gameObject in CellsHits(sc, RectCells(x0, x1, y0, y1, gridWidth))
  {
    var e := st.entries[s];
    RectCellsMember(x0, x1, y0, y1, e.cellX, e.cellY, gridWidth);
    CellsHitsComplete(sc, RectCells(x0, x1, y0, y1, gridWidth), EntryCell(e, gridWidth), s);
  }

  /** The same for a box of inclusive cell bounds (minCellX, minCellY, maxCellX, maxCellY). */
  lemma BoxHitFound(st: Store, live: set<u32>, gridWidth: nat, gridHeight: nat, sc: Scan, box: (u32, u32, u32, u32), s: u32)
    requires LiveListed(st.cells, st.entries, live, gridWidth, gridHeight) && s in live
    requires sc.cells == st.cells && sc.entries == st.entries && sc.gridWidth == gridWidth
    requires box.0 <= st.entries[s].cellX <= box.2 && box.1 <= st.entries[s].cellY <= box.3 && Hit(sc, st.entries[s])
    ensures st.entries[s].gameObject in CellsHits(sc, BoxCells(box, gridWidth))
  {
    var x1, y1 := box.2 as nat + 1, box.3 as nat + 1;
    BoxCellsRect(box, gridWidth, x1, y1);
    RectHitFound(st, live, gridWidth, gridHeight, sc, box.0, x1, box.1, y1, s);
  }

  /** BoxCells is the rectangle with exclusive bounds maxCellX + 1 and maxCellY + 1. */
  lemma BoxCellsRect(box: (u32, u32, u32, u32), gridWidth: nat, x1: nat, y1: nat)
    requires x1 == box.2 as nat + 1 && y1 == box.3 as nat + 1
    ensures BoxCells(box, gridWidth) == RectCells(box.0, x1, box.1, y1, gridWidth)
  {
  }

  /** Every cell of the row's column range is in the row's scan order. */
  lemma {:induction false} RowCellsMember(y: nat, x0: nat, x1: nat, x: nat, gridWidth: nat)
    requires x0 <= x < x1
    ensures CellIndex(x, y, gridWidth) in RowCells(y, x0, x1, gridWidth)
    decreases x1
  {
    if x < x1 - 1 {
      RowCellsMember(y, x0, x1 - 1, x, gridWidth);
    }
  }

  /** Every cell of the rectangle is in the rectangle's scan order. */
  lemma {:induction false} RectCellsMember(x0: nat, x1: nat, y0: nat, y1: nat, x: nat, y: nat, gridWidth: nat)
    requires x0 <= x < x1 && y0 <= y < y1
    ensures CellIndex(x, y, gridWidth) in RectCells(x0, x1, y0, y1, gridWidth)
    decreases y1
  {
    if y < y1 - 1 {
      RectCellsMember(x0, x1, y0, y1 - 1, x, y, gridWidth);
    } else {
      RowCellsMember(y, x0, x1, x, gridWidth);
    }
  }

  /** Inside the circle means inside its bounding square. */
  lemma SqBound(d: int, r: int)
    requires r >= 0 && Sq(d) <= Sq(r)
    ensures -r <= d <= r
  {
    if d > r {
      SqGrows(d, r);
      assert false;
    } else if d < -r {
      assert Sq(d) == Sq(-d);
      SqGrows(-d, r);
      assert false;
    }
  }

  /** Squares grow beyond zero. */
  lemma SqGrows(a: int, r: int)
    requires a > r >= 0
    ensures Sq(a) > Sq(r)
  {
    MulIsProduct(a, a);
    MulIsProduct(r, r);
    MulLe(r + 1, a, a);
    MulLe(r + 1, a, r + 1);
    assert (r + 1) * (r + 1) == r * r + 2 * r + 1;
  }

  /**
   * The scan of one cell's list as the inner loop of spatial_grid_query_circle runs it:
   * stop at the end of the list or when the buffer is full, append each hit.
   */
  method ScanList(sc: Scan, list: seq<u32>, results: array<nat>, count: u32, ghost prefix: seq<nat>) returns (count': u32)
    requires forall k :: 0 <= k < |list| ==> list[k] < |sc.entries|
    requires count <= results.Length < TWO_TO_32
    requires results[..count] == Take(prefix, results.Length)
    modifies results
    ensures count <= count' <= results.Length
    ensures results[..count'] == Take(prefix + ListHits(sc, list), results.Length)
  {
    ghost var start := results[..count];
    count' := count;
    var k := 0;
    while k < |list| && count' < results.Length
      invariant 0 <= k <= |list| && count <= count' <= results.Length
      invariant results[..count'] == start + ListHitsUpTo(sc, list, k)
      decreases |list| - k
    {
      ListHitsStep(start, sc, list, k);
      count' := ScanEntry(sc, sc.entries[list[k]], results, count');
      k := k + 1;
    }
    ScanDone(sc, prefix, list, k, results.Length, results[..count']);
  }

  /** Scanning one more slot of a list appends that slot's hits. */
  lemma ListHitsStep(start: seq<nat>, sc: Scan, list: seq<u32>, k: nat)
    requires k < |list|
    ensures start + ListHitsUpTo(sc, list, k + 1) == (start + ListHitsUpTo(sc, list, k)) + SlotHits(sc, list[k])
  {
  }

  /**
   * The list scan stops at the end of the list or with a full buffer; the hits found are
   * then the first results of the whole list.
   */
  lemma ScanDone(sc: Scan, prefix: seq<nat>, list: seq<u32>, k: nat, n: nat, found: seq<nat>)
    requires k <= |list| && found == Take(prefix, n) + ListHitsUpTo(sc, list, k) && |found| <= n
    requires k == |list| || |found| == n
    ensures found == Take(prefix + ListHits(sc, list), n)
  {
    ListHitsPrefix(sc, list, k, |list|);
    if |prefix| < n {
      if k < |list| {
        TakeFull(prefix + ListHitsUpTo(sc, list, k), prefix + ListHits(sc, list), n);
      }
    } else {
      assert found == Take(prefix, n);
      TakeFull(prefix, prefix + ListHits(sc, list), n);
    }
  }

  /**
   * The active, static and distance tests of one entry; a hit is stored at
   * results[resultCount] and counted.
   */
  method ScanEntry(sc: Scan, entry: Entry, results: array<nat>, count: u32) returns (count': u32)
    requires count < results.Length < TWO_TO_32
    modifies results
    ensures count' == if Hit(sc, entry) then count + 1 else count
    ensures results[..count'] == if Hit(sc, entry) then old(results[..count]) + [entry.gameObject] else old(results[..count])
  {
    count' := count;
    if Hit(sc, entry) {
      results[count] := entry.gameObject;
      count' := count + 1;
    }
  }

  /** A scan of fewer slots reports a prefix of what a scan of more slots reports. */
  lemma {:induction false} ListHitsPrefix(sc: Scan, list: seq<u32>, k: nat, j: nat)
    requires k <= j <= |list|
    ensures |ListHitsUpTo(sc, list, k)| <= |ListHitsUpTo(sc, list, j)|
    ensures ListHitsUpTo(sc, list, j)[..|ListHitsUpTo(sc, list, k)|] == ListHitsUpTo(sc, list, k)
    decreases j
  {
    if k < j {
      ListHitsPrefix(sc, list, k, j - 1);
      var a, b := ListHitsUpTo(sc, list, k), ListHitsUpTo(sc, list, j - 1);
      assert (b + SlotHits(sc, list[j - 1]))[..|a|] == b[..|a|];
    }
  }

  /** Every slot of the list is an entry index. */
  ghost predicate SlotsIn(list: seq<u32>, n: nat)
  {
    forall k :: 0 <= k < |list| ==> list[k] < n
  }

  /** What the scan loops rely on: a row-major cell array whose lists hold entry indices. */
  ghost predicate ScanReady(sc: Scan, gridHeight: nat)
  {
    |sc.cells| == Mul(sc.gridWidth, gridHeight) && CountsMatch(sc.cells) &&
    forall i :: 0 <= i < |sc.cells| ==> SlotsIn(sc.cells[i].objects, |sc.entries|)
  }

  /** The grid invariant gives the scan loops what they rely on. */
  lemma GridScanReady(st: Store, live: set<u32>, sc: Scan, gridHeight: nat)
    requires GridInv(st, live, sc.gridWidth, gridHeight)
    requires sc.cells == st.cells && sc.entries == st.entries && |st.cells| == Mul(sc.gridWidth, gridHeight)
    ensures ScanReady(sc, gridHeight)
  {
    forall i | 0 <= i < |sc.cells|
      ensures SlotsIn(sc.cells[i].objects, |sc.entries|)
    {
      var list := sc.cells[i].objects;
      assert ListedIn(list, sc.entries, live, i, sc.gridWidth);
      forall k | 0 <= k < |list|
        ensures list[k] < |sc.entries|
      {
        assert list[k] in list;
      }
    }
  }

  /** A row scan that has not started adds no cells. */
  lemma RowStart(before: seq<nat>, y: nat, x0: nat, gridWidth: nat)
    ensures before + RowCells(y, x0, x0, gridWidth) == before
  {
    assert RowCells(y, x0, x0, gridWidth) == [];
  }

  /** Scanning one more cell of a row appends that cell's hits. */
  lemma RowStep(sc: Scan, before: seq<nat>, y: nat, x0: nat, x: nat)
    requires x0 <= x
    ensures CellsHits(sc, before + RowCells(y, x0, x + 1, sc.gridWidth)) ==
      CellsHits(sc, before + RowCells(y, x0, x, sc.gridWidth)) + CellHits(sc, CellIndex(x, y, sc.gridWidth))
  {
    var cs := before + RowCells(y, x0, x, sc.gridWidth);
    assert before + RowCells(y, x0, x + 1, sc.gridWidth) == cs + [CellIndex(x, y, sc.gridWidth)];
    assert (cs + [CellIndex(x, y, sc.gridWidth)])[..|cs|] == cs;
  }

  /** A rectangle scan that has not started reports nothing. */
  lemma RectStart(sc: Scan, x0: nat, x1: nat, y0: nat, n: nat)
    ensures Take(CellsHits(sc, RectCells(x0, x1, y0, y0, sc.gridWidth)), n) == []
  {
    assert RectCells(x0, x1, y0, y0, sc.gridWidth) == [];
  }

  /** The rectangle's scan order grows by one row at a time. */
  lemma RectStep(x0: nat, x1: nat, y0: nat, y: nat, gridWidth: nat)
    requires y0 <= y
    ensures RectCells(x0, x1, y0, y + 1, gridWidth) == RectCells(x0, x1, y0, y, gridWidth) + RowCells(y, x0, x1, gridWidth)
  {
  }

  /**
   * One cell (x, y) of spatial_grid_query_circle: an empty cell is skipped, a nonempty one
   * scanned while the buffer has room.
   */
  method ScanCell(sc: Scan, gridHeight: nat, ghost before: seq<nat>, y: nat, x0: nat, x: nat, next: nat,
                  results: array<nat>, count: u32) returns (count': u32)
    requires ScanReady(sc, gridHeight) && x0 <= x < sc.gridWidth && y < gridHeight && next == x + 1
    requires count <= results.Length < TWO_TO_32
    requires results[..count] == Take(CellsHits(sc, before + RowCells(y, x0, x, sc.gridWidth)), results.Length)
    modifies results
    ensures count <= count' <= results.Length
    ensures results[..count'] == Take(CellsHits(sc, before + RowCells(y, x0, next, sc.gridWidth)), results.Length)
  {
    var i := CellIndex(x, y, sc.gridWidth);
    CellIndexBound(x, y, sc.gridWidth, gridHeight);
    RowStep(sc, before, y, x0, x);
    ghost var prefix := CellsHits(sc, before + RowCells(y, x0, x, sc.gridWidth));
    if sc.cells[i].objectCount == 0 {
      assert CellHits(sc, i) == [];
      assert prefix + CellHits(sc, i) == prefix;
      return count;
    }
    assert SlotsIn(sc.cells[i].objects, |sc.entries|);
    count' := ScanList(sc, sc.cells[i].objects, results, count, prefix);
  }

  /** The column loop of spatial_grid_query_circle over row y, columns x0 .. x1-1. */
  method ScanRow(sc: Scan, gridHeight: nat, x0: nat, x1: nat, y0: nat, y: nat, next: nat, results: array<nat>, count: u32)
    returns (count': u32)
    requires ScanReady(sc, gridHeight) && x0 <= x1 <= sc.gridWidth && y0 <= y < gridHeight && next == y + 1
    requires count <= results.Length < TWO_TO_32
    requires RectScanned(sc, x0, x1, y0, y, results[..count], results.Length)
    modifies results
    ensures count <= count' <= results.Length
    ensures RectScanned(sc, x0, x1, y0, next, results[..count'], results.Length)
  {
    ghost var before := RectCells(x0, x1, y0, y, sc.gridWidth);
    RowStart(before, y, x0, sc.gridWidth);
    RectStep(x0, x1, y0, y, sc.gridWidth);
    count' := count;
    var x := x0;
    while x < x1
      invariant x0 <= x <= x1 && count <= count' <= results.Length
      invariant results[..count'] == Take(CellsHits(sc, before + RowCells(y, x0, x, sc.gridWidth)), results.Length)
      decreases x1 - x
    {
      var next := x + 1;
      count' := ScanCell(sc, gridHeight, before, y, x0, x, next, results, count');
      x := next;
    }
  }

  /** The buffer holds the first results of a scan of rows y0 .. y-1. */
  ghost predicate RectScanned(sc: Scan, x0: nat, x1: nat, y0: nat, y: nat, found: seq<nat>, n: nat)
  {
    found == Take(CellsHits(sc, RectCells(x0, x1, y0, y, sc.gridWidth)), n)
  }

  /** The buffer holds the first results of a scan of the box (minCellX, minCellY, maxCellX, maxCellY). */
  ghost predicate BoxScanned(sc: Scan, box: (u32, u32, u32, u32), found: seq<nat>, n: nat)
  {
    found == Take(CellsHits(sc, BoxCells(box, sc.gridWidth)), n)
  }

  /** A scan of the rectangle with exclusive bounds maxCellX + 1, maxCellY + 1 is a scan of the box. */
  lemma BoxScannedOf(sc: Scan, box: (u32, u32, u32, u32), x1: nat, y1: nat, found: seq<nat>, n: nat)
    requires x1 == box.2 as nat + 1 && y1 == box.3 as nat + 1 && RectScanned(sc, box.0, x1, box.1, y1, found, n)
    ensures BoxScanned(sc, box, found, n)
  {
  }

  /** The row loop of spatial_grid_query_circle over rows y0 .. y1-1, columns x0 .. x1-1. */
  method ScanRect(sc: Scan, gridHeight: nat, x0: nat, x1: nat, y0: nat, y1: nat, results: array<nat>) returns (count: u32)
    requires ScanReady(sc, gridHeight) && x0 <= x1 <= sc.gridWidth && y0 <= y1 <= gridHeight
    requires results.Length < TWO_TO_32
    modifies results
    ensures count <= results.Length
    ensures RectScanned(sc, x0, x1, y0, y1, results[..count], results.Length)
  {
    count := 0;
    var y := y0;
    RectStart(sc, x0, x1, y0, results.Length);
    assert results[..0] == [];
    while y < y1
      invariant y0 <= y <= y1 && count <= results.Length
      invariant RectScanned(sc, x0, x1, y0, y, results[..count], results.Length)
      decreases y1 - y
    {
      var next := y + 1;
      count := ScanRow(sc, gridHeight, x0, x1, y0, y, next, results, count);
      y := next;
    }
  }

  /**
   * The part of spatial_grid_query_circle that fills the buffer: record the circle, scan the
   * valid box (minCellX, minCellY, maxCellX, maxCellY) and store the number of results.
   */
  method ScanBox(sc: Scan, gridHeight: nat, box: (u32, u32, u32, u32), query: SpatialQuery) returns (count: u32)
    requires ScanReady(sc, gridHeight) && query.Valid() && box.0 <= box.2 < sc.gridWidth && box.1 <= box.3 < gridHeight
    modifies query, query.results
    ensures query.Valid() && query.results == old(query.results) && query.maxResults == old(query.maxResults)
    ensures query.includeStatic == old(query.includeStatic) && count == query.resultCount
    ensures query.queryX == sc.circle.centerX && query.queryY == sc.circle.centerY && query.queryRadius == sc.circle.radius
    ensures query.queryWidth == old(query.queryWidth) && query.queryHeight == old(query.queryHeight)
    ensures BoxScanned(sc, box, query.results[..count], query.results.Length)
  {
    query.resultCount := 0;
    query.queryX, query.queryY, query.queryRadius := sc.circle.centerX, sc.circle.centerY, sc.circle.radius;
    count := FillResults(sc, gridHeight, box, query);
  }

  /** The cell loops over the box, then the final resultCount. */
  method FillResults(sc: Scan, gridHeight: nat, box: (u32, u32, u32, u32), query: SpatialQuery) returns (count: u32)
    requires ScanReady(sc, gridHeight) && query.Valid() && box.0 <= box.2 < sc.gridWidth && box.1 <= box.3 < gridHeight
    modifies query`resultCount, query.results
    ensures query.Valid() && count == query.resultCount
    ensures BoxScanned(sc, box, query.results[..count], query.results.Length)
  {
    var x1, y1 := box.2 as nat + 1, box.3 as nat + 1;
    count := ScanRect(sc, gridHeight, box.0, x1, box.1, y1, query.results);
    BoxScannedOf(sc, box, x1, y1, query.results[..count], query.results.Length);
    query.resultCount := count;
  }

  // ---- Drain on values ----

  /** The slots listed in cells i .. |cells|-1. */
  ghost function ListedFrom(cells: seq<Cell>, i: nat): set<u32>
    decreases |cells| - i
  {
    if i >= |cells| then {} else Elems(cells[i].objects) + ListedFrom(cells, i + 1)
  }

  /** A slot listed in cells i .. |cells|-1 is listed in one of them. */
  lemma {:induction false} ListedFromSome(cells: seq<Cell>, i: nat, s: u32)
    requires s in ListedFrom(cells, i)
    ensures exists j :: i <= j < |cells| && s in cells[j].objects
    decreases |cells| - i
  {
    if s !in Elems(cells[i].objects) {
      ListedFromSome(cells, i + 1, s);
    }
  }

  /** Under the list invariant the listed slots are exactly the live ones. */
  lemma {:induction false} ListedFromLive(cells: seq<Cell>, entries: seq<Entry>, live: set<u32>, gridWidth: nat, gridHeight: nat, i: nat)
    requires LiveListed(cells, entries, live, gridWidth, gridHeight) && ListedLive(cells, entries, live, gridWidth)
    requires i <= |cells|
    ensures ListedFrom(cells, i) == set s | s in live && i <= EntryCell(entries[s], gridWidth)
    decreases |cells| - i
  {
    if i < |cells| {
      ListedFromLive(cells, entries, live, gridWidth, gridHeight, i + 1);
    } else {
      forall s | s in live ensures EntryCell(entries[s], gridWidth) < i { }
    }
  }

  /** Under the list invariant, the slots of cell i are listed in no later cell. */
  lemma ListedDisjoint(cells: seq<Cell>, entries: seq<Entry>, live: set<u32>, gridWidth: nat, gridHeight: nat, i: nat)
    requires LiveListed(cells, entries, live, gridWidth, gridHeight) && ListedLive(cells, entries, live, gridWidth)
    requires i < |cells|
    ensures Elems(cells[i].objects) !! ListedFrom(cells, i + 1)
  {
    ListedFromLive(cells, entries, live, gridWidth, gridHeight, i + 1);
    assert ListedIn(cells[i].objects, entries, live, i, gridWidth);
  }

  /** The slots listed from cell i on are those of cell i and those listed from cell i + 1 on. */
  lemma ListedFromStep(cells: seq<Cell>, i: nat)
    requires i < |cells|
    ensures ListedFrom(cells, i) == Elems(cells[i].objects) + ListedFrom(cells, i + 1)
  {
  }

  /** The object_pool_free of one entry of spatial_grid_destroy: the slot is returned to the pool. */
  method FreeSlot(pool: ObjectPool, s: u32)
    requires pool.Valid() && s in pool.Allocated()
    modifies pool
    ensures pool.Valid() && pool.Allocated() == old(pool.Allocated()) - {s}
    ensures pool.capacity == old(pool.capacity) && pool.memory == old(pool.memory) && pool.elementSize == old(pool.elementSize)
  {
    SlotAddressOwned(pool.memory, pool.capacity, pool.elementSize, s);
    var r := pool.Free(pool.SlotAddress(s));
  }

  /** The inner loop of spatial_grid_destroy: free every entry of one cell's list. */
  method FreeList(pool: ObjectPool, list: seq<u32>, ghost rest: set<u32>)
    requires pool.Valid() && Distinct(list) && Elems(list) !! rest && pool.Allocated() == Elems(list) + rest
    modifies pool
    ensures pool.Valid() && pool.Allocated() == rest
    ensures pool.capacity == old(pool.capacity) && pool.memory == old(pool.memory) && pool.elementSize == old(pool.elementSize)
  {
    var k := 0;
    while k < |list|
      invariant k <= |list| && pool.Valid() && pool.Allocated() == Elems(list[k..]) + rest
      invariant pool.capacity == old(pool.capacity) && pool.memory == old(pool.memory) && pool.elementSize == old(pool.elementSize)
    {
      ElemsStep(list, k);
      FreeSlot(pool, list[k]);
      k := k + 1;
    }
  }

  /** Elements of list[k..] are list[k] and those of list[k+1..], without list[k] in a list without repetitions. */
  lemma ElemsStep(list: seq<u32>, k: nat)
    requires Distinct(list) && k < |list|
    ensures Elems(list[k..]) == {list[k]} + Elems(list[k + 1..]) && list[k] !in Elems(list[k + 1..])
  {
    assert list[k..] == [list[k]] + list[k + 1..];
    var rest := list[k + 1..];
    forall j | 0 <= j < |rest|
      ensures rest[j] != list[k]
    {
      assert rest[j] == list[k + 1 + j];
    }
  }

  /**
   * The cell loop of spatial_grid_destroy: every listed entry is freed exactly once, so no free
   * reports a double free and the pool ends with nothing allocated.
   */
  method FreeCells(pool: ObjectPool, cells: seq<Cell>, entries: seq<Entry>, gridWidth: nat, gridHeight: nat)
    requires pool.Valid() && CountsMatch(cells)
    requires LiveListed(cells, entries, pool.Allocated(), gridWidth, gridHeight)
    requires ListedLive(cells, entries, pool.Allocated(), gridWidth)
    modifies pool
    ensures pool.Valid() && pool.Allocated() == {} && pool.freeCount == pool.capacity
    ensures pool.capacity == old(pool.capacity) && pool.memory == old(pool.memory) && pool.elementSize == old(pool.elementSize)
  {
    ghost var live := pool.Allocated();
    ListedFromLive(cells, entries, live, gridWidth, gridHeight, 0);
    var i := 0;
    while i < |cells|
      invariant i <= |cells| && pool.Valid() && pool.Allocated() == ListedFrom(cells, i)
      invariant pool.capacity == old(pool.capacity) && pool.memory == old(pool.memory) && pool.elementSize == old(pool.elementSize)
    {
      ListedFromStep(cells, i);
      ListedDisjoint(cells, entries, live, gridWidth, gridHeight, i);
      FreeList(pool, cells[i].objects, ListedFrom(cells, i + 1));
      i := i + 1;
    }
    assert pool.UsedCount() == 0;
  }

  // ---- The grid and the query buffer ----

  /** SpatialQuery: a caller-owned result buffer of object references. */
  class SpatialQuery {
    var results: array<nat>
    var resultCount: u32
    var maxResults: u32
    var queryX: int
    var queryY: int
    var queryRadius: int
    var queryWidth: int
    var queryHeight: int
    var includeStatic: bool

    ghost predicate Valid()
      reads this
    {
      results.Length == maxResults && resultCount <= maxResults
    }

    /** The memset and the buffer allocation of spatial_query_create. */
    constructor (maxResults: u32)
      ensures Valid() && fresh(results)
      ensures this.maxResults == maxResults && resultCount == 0 && includeStatic
      ensures queryX == 0 && queryY == 0 && queryRadius == 0 && queryWidth == 0 && queryHeight == 0
    {
      results := new nat[maxResults];
      resultCount := 0;
      this.maxResults := maxResults;
      queryX, queryY, queryRadius, queryWidth, queryHeight := 0, 0, 0, 0, 0;
      includeStatic := true;
    }

    /** spatial_query_create: no buffer for a zero capacity. */
    static method Create(maxResults: u32) returns (query: SpatialQuery?)
      ensures query == null <==> maxResults == 0
      ensures query != null ==>
        fresh(query) && fresh(query.results) && query.Valid() &&
        query.maxResults == maxResults && query.resultCount == 0 && query.includeStatic
    {
      if maxResults == 0 {
        return null;
      }
      query := new SpatialQuery(maxResults);
    }
  }

  /**
   * The SpatialGrid structure. The fields no modelled operation changes after
   * spatial_grid_create are constants; `entryPool` is embedded in the C structure, so it is
   * never replaced. `store` holds the cells, the entries, the id table and the object
   * statistics, which add and remove change together.
   */
  class SpatialGrid {
    const cellSize: u32
    const gridWidth: u32
    const gridHeight: u32
    const worldWidth: u32
    const worldHeight: u32
    const offsetX: int
    const offsetY: int
    const maxObjects: u32
    const maxObjectsPerCell: u32
    const enableStaticOptimization: bool
    const enableFrustumCulling: bool
    const entryPool: ObjectPool
    var store: Store
    var queriesPerFrame: u32
    var collisionChecksPerFrame: u32

    /** The grid's dimensions, the entry pool sized for maxObjects, and the grid invariant. */
    ghost predicate Valid()
      reads this`store, entryPool
    {
      cellSize > 0 && gridWidth > 0 && gridHeight > 0 && maxObjects > 0 &&
      worldWidth == WorldExtent(gridWidth, cellSize) && worldHeight == WorldExtent(gridHeight, cellSize) &&
      |store.cells| == Mul(gridWidth, gridHeight) &&
      |store.entries| == maxObjects && |store.objectLookup| == maxObjects &&
      entryPool.Valid() && entryPool.capacity == maxObjects &&
      GridInv(store, entryPool.Allocated(), gridWidth, gridHeight)
    }

    /** spatial_grid_get_cell: the index of cell (cellX, cellY), or None (NULL) outside the grid. */
    function GetCell(cellX: u32, cellY: u32): (r: Option<nat>)
      ensures r.None? <==> cellX >= gridWidth || cellY >= gridHeight
      ensures r.Some? ==> r.value == CellIndex(cellX, cellY, gridWidth) && r.value < Mul(gridWidth, gridHeight)
    {
      if cellX >= gridWidth || cellY >= gridHeight then None
      else
        CellIndexBound(cellX, cellY, gridWidth, gridHeight);
        Some(CellIndex(cellX, cellY, gridWidth))
    }

    /** spatial_grid_is_valid_cell. */
    predicate IsValidCell(cellX: u32, cellY: u32)
      ensures IsValidCell(cellX, cellY) <==> GetCell(cellX, cellY).Some?
    {
      cellX < gridWidth && cellY < gridHeight
    }

    /**
     * spatial_grid_world_to_cell: the cell containing (worldX, worldY) after subtracting the
     * offset, or None outside [0, worldWidth) x [0, worldHeight).
     */
    function WorldToCell(worldX: int, worldY: int): (r: Option<(u32, u32)>)
      requires cellSize > 0
      ensures r.Some? <==> 0 <= worldX - offsetX < worldWidth && 0 <= worldY - offsetY < worldHeight
    {
      match (AxisToCell(worldX, offsetX, worldWidth, cellSize), AxisToCell(worldY, offsetY, worldHeight, cellSize))
      case (Some(cellX), Some(cellY)) => Some((cellX, cellY))
      case _ => None
    }

    /** A cell world_to_cell finds is a valid cell. */
    lemma WorldToCellValid(worldX: int, worldY: int)
      requires cellSize > 0 && worldWidth == WorldExtent(gridWidth, cellSize) && worldHeight == WorldExtent(gridHeight, cellSize)
      requires WorldToCell(worldX, worldY).Some?
      ensures IsValidCell(WorldToCell(worldX, worldY).value.0, WorldToCell(worldX, worldY).value.1)
    {
      AxisToCellValid(worldX, offsetX, gridWidth, cellSize);
      AxisToCellValid(worldY, offsetY, gridHeight, cellSize);
    }

    /** The cell world_to_cell finds is the one whose span holds the position on both axes. */
    lemma WorldToCellBounds(worldX: int, worldY: int)
      requires cellSize > 0 && WorldToCell(worldX, worldY).Some?
      ensures var (cx, cy) := WorldToCell(worldX, worldY).value;
        cx * cellSize <= worldX - offsetX < (cx + 1) * cellSize &&
        cy * cellSize <= worldY - offsetY < (cy + 1) * cellSize
    {
      AxisToCellBounds(worldX, offsetX, worldWidth, cellSize);
      AxisToCellBounds(worldY, offsetY, worldHeight, cellSize);
    }

    /** The memset and field initialisation of spatial_grid_create, before the entry pool is set up. */
    constructor (cellSize: u32, gridWidth: u32, gridHeight: u32, worldOffsetX: int, worldOffsetY: int, maxObjects: u32)
      ensures this.cellSize == cellSize && this.gridWidth == gridWidth && this.gridHeight == gridHeight
      ensures worldWidth == WorldExtent(gridWidth, cellSize) && worldHeight == WorldExtent(gridHeight, cellSize)
      ensures offsetX == worldOffsetX && offsetY == worldOffsetY && this.maxObjects == maxObjects
      ensures maxObjectsPerCell == MAX_OBJECTS_PER_CELL && enableStaticOptimization && enableFrustumCulling
      ensures store == Store(seq(Mul(gridWidth, gridHeight), _ => EmptyCell), seq(maxObjects, _ => Entry(0, 0, 0, false)),
                             seq(maxObjects, _ => None), 0, 0)
      ensures queriesPerFrame == 0 && collisionChecksPerFrame == 0
      ensures fresh(entryPool) && entryPool.Valid() && entryPool.capacity == 0
    {
      var cells := NewCells(Mul(gridWidth, gridHeight));
      this.cellSize := cellSize;
      this.gridWidth := gridWidth;
      this.gridHeight := gridHeight;
      worldWidth := WorldExtent(gridWidth, cellSize);
      worldHeight := WorldExtent(gridHeight, cellSize);
      offsetX := worldOffsetX;
      offsetY := worldOffsetY;
      this.maxObjects := maxObjects;
      maxObjectsPerCell := MAX_OBJECTS_PER_CELL;
      enableStaticOptimization := true;
      enableFrustumCulling := true;
      entryPool := new ObjectPool();
      store := Store(cells, seq(maxObjects, _ => Entry(0, 0, 0, false)), seq(maxObjects, _ => None), 0, 0);
      queriesPerFrame := 0;
      collisionChecksPerFrame := 0;
    }

    /**
     * spatial_grid_create with the check it evidently intends: a cell count that overflows
     * uint32_t is refused (see CreateOverrunsCells). The entry pool is set up with the checked
     * ObjectPool.Init, so an entry-pool block that overflows uint32_t is refused too.
     * `block` is what aligned_alloc returns for the entry pool.
     */
    static method Create(cellSize: u32, gridWidth: u32, gridHeight: u32, worldOffsetX: int, worldOffsetY: int,
                         maxObjects: u32, block: u32) returns (grid: SpatialGrid?)
      requires block % MEMORY_ALIGNMENT == 0
      requires block != 0 && Mul(maxObjects, AlignSize(ENTRY_SIZE)) < TWO_TO_32 ==>
        block + Mul(maxObjects, AlignSize(ENTRY_SIZE)) < TWO_TO_32
      ensures grid == null <==>
        cellSize == 0 || gridWidth == 0 || gridHeight == 0 || maxObjects == 0 ||
        Mul(gridWidth, gridHeight) >= TWO_TO_32 ||
        Mul(maxObjects, AlignSize(ENTRY_SIZE)) >= TWO_TO_32 || block == 0
      ensures grid != null ==>
        fresh(grid) && fresh(grid.entryPool) && grid.Valid() &&
        grid.cellSize == cellSize && grid.gridWidth == gridWidth && grid.gridHeight == gridHeight &&
        grid.maxObjects == maxObjects && grid.offsetX == worldOffsetX && grid.offsetY == worldOffsetY &&
        grid.worldWidth == WorldExtent(gridWidth, cellSize) && grid.worldHeight == WorldExtent(gridHeight, cellSize) &&
        grid.store.totalObjects == 0 && grid.store.cellsWithObjects == 0 && grid.queriesPerFrame == 0 &&
        grid.entryPool.Allocated() == {} &&
        (forall i :: 0 <= i < |grid.store.cells| ==> grid.store.cells[i] == EmptyCell) &&
        (forall id :: 0 <= id < |grid.store.objectLookup| ==> grid.store.objectLookup[id] == None)
    {
      if cellSize == 0 || gridWidth == 0 || gridHeight == 0 || maxObjects == 0 {
        return null;
      }
      if Mul(gridWidth, gridHeight) >= TWO_TO_32 {
        return null;
      }
      grid := new SpatialGrid(cellSize, gridWidth, gridHeight, worldOffsetX, worldOffsetY, maxObjects);
      var poolResult := grid.entryPool.Init(ENTRY_SIZE, maxObjects, "SpatialGridEntries", block);
      if poolResult != Ok {
        return null;
      }
      EmptyGridInv(|grid.store.cells|, grid.store.entries, maxObjects, gridWidth, gridHeight);
    }

    /** spatial_grid_add_object: link a new entry at the head of the object's cell. */
    method AddObject(obj: Entity) returns (ok: bool)
      requires Valid()
      modifies this, entryPool
      ensures Valid()
      ensures ok <==> obj.hasTransform && WorldToCell(obj.x, obj.y).Some? && old(entryPool.freeCount) > 0
      ensures !ok ==> unchanged(this) && unchanged(entryPool)
      ensures queriesPerFrame == old(queriesPerFrame) && collisionChecksPerFrame == old(collisionChecksPerFrame)
      ensures ok ==>
        var (cellX, cellY) := WorldToCell(obj.x, obj.y).value;
        var entry := Entry(obj.handle, cellX, cellY, obj.isStatic);
        var s := old(entryPool.freeList[entryPool.freeHead]);
        s !in old(entryPool.Allocated()) && entryPool.Allocated() == old(entryPool.Allocated()) + {s} &&
        Addable(old(store), s, entry, gridWidth) && store == AddEntry(old(store), s, entry, obj.id, gridWidth)
    {
      if !obj.hasTransform {
        return false;
      }
      var cell := WorldToCell(obj.x, obj.y);
      if cell.None? {
        return false;
      }
      var (cellX, cellY) := cell.value;
      WorldToCellValid(obj.x, obj.y);
      ghost var live := entryPool.Allocated();
      var addr := entryPool.Alloc();
      if addr == 0 {
        return false;
      }
      var s := entryPool.ObjectIndex(addr);
      var entry := Entry(obj.handle, cellX, cellY, obj.isStatic);
      var index := GetCell(cellX, cellY);
      if index.None? {
        // spatial_grid_add_object frees the entry and fails here; a found cell is always valid.
        assert false;
      }
      AddRemoveBack(live, s);
      LinkEntry(s, entry, obj.id);
      return true;
    }

    /** Everything Valid() states, except that slot `s` is allocated but not yet in the grid. */
    ghost predicate LinkReady(s: u32, e: Entry)
      reads this, entryPool
    {
      cellSize > 0 && gridWidth > 0 && gridHeight > 0 && maxObjects > 0 &&
      worldWidth == WorldExtent(gridWidth, cellSize) && worldHeight == WorldExtent(gridHeight, cellSize) &&
      |store.cells| == Mul(gridWidth, gridHeight) &&
      |store.entries| == maxObjects && |store.objectLookup| == maxObjects &&
      entryPool.Valid() && entryPool.capacity == maxObjects &&
      s in entryPool.Allocated() && s < maxObjects && e.cellX < gridWidth && e.cellY < gridHeight &&
      GridInv(store, entryPool.Allocated() - {s}, gridWidth, gridHeight)
    }

    /** The list insert, counters and lookup write of spatial_grid_add_object for slot `s`. */
    method LinkEntry(s: u32, entry: Entry, id: u32)
      requires LinkReady(s, entry)
      modifies this
      ensures Valid()
      ensures Addable(old(store), s, entry, gridWidth) && store == AddEntry(old(store), s, entry, id, gridWidth)
      ensures queriesPerFrame == old(queriesPerFrame) && collisionChecksPerFrame == old(collisionChecksPerFrame)
    {
      ghost var live := entryPool.Allocated() - {s};
      AllocatedBelowMax(entryPool.objectStates, s);
      CellIndexBound(entry.cellX, entry.cellY, gridWidth, gridHeight);
      AddKeepsInv(store, live, gridWidth, gridHeight, s, entry, id);
      RemoveAddBack(entryPool.Allocated(), s);
      store := AddEntry(store, s, entry, id, gridWidth);
    }

    /** spatial_grid_remove_object: unlink the id's entry from its cell and return it to the pool. */
    method RemoveObject(obj: Entity) returns (ok: bool)
      requires Valid()
      modifies this, entryPool
      ensures Valid()
      ensures ok <==> obj.id < maxObjects && old(store.objectLookup[obj.id]).Some?
      ensures !ok ==> unchanged(this) && unchanged(entryPool)
      ensures queriesPerFrame == old(queriesPerFrame) && collisionChecksPerFrame == old(collisionChecksPerFrame)
      ensures ok ==>
        var s := old(store.objectLookup[obj.id]).value;
        s in old(entryPool.Allocated()) && entryPool.Allocated() == old(entryPool.Allocated()) - {s} &&
        Removable(old(store), obj.id, gridWidth) && store == RemoveEntry(old(store), obj.id, gridWidth) &&
        entryPool.freeCount > 0 && entryPool.freeList[entryPool.freeHead] == s
    {
      if obj.id >= maxObjects {
        return false;
      }
      var slot := store.objectLookup[obj.id];
      if slot.None? {
        return false;
      }
      var s := slot.value;
      var entry := store.entries[s];
      var index := GetCell(entry.cellX, entry.cellY);
      if index.None? {
        // spatial_grid_remove_object fails here; a live entry always names a valid cell.
        assert false;
      }
      UnlinkEntry(obj.id);
      ReleaseSlot(s);
      return true;
    }

    /** The object_pool_free of spatial_grid_remove_object, once slot `s` is out of the grid. */
    method ReleaseSlot(s: u32)
      requires s < |store.entries| && LinkReady(s, store.entries[s])
      modifies entryPool
      ensures Valid() && entryPool.Allocated() == old(entryPool.Allocated()) - {s}
      ensures entryPool.freeCount > 0 && entryPool.freeList[entryPool.freeHead] == s
    {
      ghost var live := entryPool.Allocated() - {s};
      SlotAddressOwned(entryPool.memory, entryPool.capacity, entryPool.elementSize, s);
      var r := entryPool.Free(entryPool.SlotAddress(s));
      assert entryPool.Allocated() == live;
    }

    /**
     * spatial_grid_update_object: skip a static object, add an untracked one, remove one
     * that left the world, and move one that changed cell by a remove and an add, which
     * reuses the slot the remove returned to the pool.
     */
    method UpdateObject(obj: Entity) returns (ok: bool)
      requires Valid()
      modifies this, entryPool
      ensures Valid()
      ensures queriesPerFrame == old(queriesPerFrame) && collisionChecksPerFrame == old(collisionChecksPerFrame)
      ensures !obj.hasTransform || obj.isStatic || obj.id >= maxObjects ==>
        ok == (obj.hasTransform && obj.isStatic) && unchanged(this) && unchanged(entryPool)
      ensures obj.hasTransform && !obj.isStatic && obj.id < maxObjects && old(store.objectLookup[obj.id]).None? ==>
        (ok <==> WorldToCell(obj.x, obj.y).Some? && old(entryPool.freeCount) > 0) &&
        (!ok ==> unchanged(this) && unchanged(entryPool)) &&
        (ok ==>
          var (cellX, cellY) := WorldToCell(obj.x, obj.y).value;
          var s := old(entryPool.freeList[entryPool.freeHead]);
          entryPool.Allocated() == old(entryPool.Allocated()) + {s} &&
          Addable(old(store), s, Entry(obj.handle, cellX, cellY, false), gridWidth) &&
          store == AddEntry(old(store), s, Entry(obj.handle, cellX, cellY, false), obj.id, gridWidth))
      ensures obj.hasTransform && !obj.isStatic && obj.id < maxObjects && old(store.objectLookup[obj.id]).Some? ==>
        var s := old(store.objectLookup[obj.id]).value;
        ok && s < |old(store.entries)| && Removable(old(store), obj.id, gridWidth) &&
        (WorldToCell(obj.x, obj.y).None? ==>
          entryPool.Allocated() == old(entryPool.Allocated()) - {s} &&
          store == RemoveEntry(old(store), obj.id, gridWidth)) &&
        (WorldToCell(obj.x, obj.y) == Some((old(store.entries[s]).cellX, old(store.entries[s]).cellY)) ==>
          unchanged(this) && unchanged(entryPool)) &&
        (WorldToCell(obj.x, obj.y).Some? &&
         WorldToCell(obj.x, obj.y) != Some((old(store.entries[s]).cellX, old(store.entries[s]).cellY)) ==>
          var (cellX, cellY) := WorldToCell(obj.x, obj.y).value;
          entryPool.Allocated() == old(entryPool.Allocated()) &&
          Addable(RemoveEntry(old(store), obj.id, gridWidth), s, Entry(obj.handle, cellX, cellY, false), gridWidth) &&
          store == AddEntry(RemoveEntry(old(store), obj.id, gridWidth), s, Entry(obj.handle, cellX, cellY, false), obj.id, gridWidth))
    {
      if !obj.hasTransform {
        return false;
      }
      if obj.isStatic {
        return true;
      }
      if obj.id >= maxObjects {
        return false;
      }
      var slot := store.objectLookup[obj.id];
      if slot.None? {
        ok := AddObject(obj);
        return;
      }
      var cell := WorldToCell(obj.x, obj.y);
      if cell.None? {
        ok := RemoveObject(obj);
        return;
      }
      var entry := store.entries[slot.value];
      if cell.value == (entry.cellX, entry.cellY) {
        TrackedRemovable(store, entryPool.Allocated(), gridWidth, gridHeight, obj.id);
        return true;
      }
      ok := MoveObject(obj);
    }

    /** The remove-then-add of spatial_grid_update_object for a tracked object that changed cell. */
    method MoveObject(obj: Entity) returns (ok: bool)
      requires Valid() && obj.hasTransform && !obj.isStatic && obj.id < maxObjects
      requires store.objectLookup[obj.id].Some? && WorldToCell(obj.x, obj.y).Some?
      modifies this, entryPool
      ensures Valid()
      ensures queriesPerFrame == old(queriesPerFrame) && collisionChecksPerFrame == old(collisionChecksPerFrame)
      ensures var s := old(store.objectLookup[obj.id]).value;
        var (cellX, cellY) := WorldToCell(obj.x, obj.y).value;
        ok && Removable(old(store), obj.id, gridWidth) &&
        entryPool.Allocated() == old(entryPool.Allocated()) &&
        Addable(RemoveEntry(old(store), obj.id, gridWidth), s, Entry(obj.handle, cellX, cellY, false), gridWidth) &&
        store == AddEntry(RemoveEntry(old(store), obj.id, gridWidth), s, Entry(obj.handle, cellX, cellY, false), obj.id, gridWidth)
    {
      ghost var s := store.objectLookup[obj.id].value;
      ghost var live := entryPool.Allocated();
      var removed := RemoveObject(obj);
      assert entryPool.freeList[entryPool.freeHead] == s && entryPool.Allocated() == live - {s};
      ok := AddObject(obj);
      RemoveAddBack(live, s);
    }

    /**
     * The cells spatial_grid_query_circle scans: the cells of the corners (cx - r, cy - r) and
     * (cx + r, cy + r) of the circle's bounding square, as (minCellX, minCellY, maxCellX, maxCellY),
     * or None when either corner is outside the grid.
     */
    function QueryBox(centerX: int, centerY: int, radius: int): (r: Option<(u32, u32, u32, u32)>)
      requires cellSize > 0
      ensures r.Some? <==> WorldToCell(centerX - radius, centerY - radius).Some? && WorldToCell(centerX + radius, centerY + radius).Some?
      ensures r.Some? ==> (r.value.0, r.value.1) == WorldToCell(centerX - radius, centerY - radius).value
      ensures r.Some? ==> (r.value.2, r.value.3) == WorldToCell(centerX + radius, centerY + radius).value
    {
      match (WorldToCell(centerX - radius, centerY - radius), WorldToCell(centerX + radius, centerY + radius))
      case (Some((minX, minY)), Some((maxX, maxY))) => Some((minX, minY, maxX, maxY))
      case _ => None
    }

    /** For a nonnegative radius the box is a valid range of cells on both axes. */
    lemma QueryBoxValid(centerX: int, centerY: int, radius: int)
      requires Valid() && radius >= 0 && QueryBox(centerX, centerY, radius).Some?
      ensures var (minX, minY, maxX, maxY) := QueryBox(centerX, centerY, radius).value;
        minX <= maxX < gridWidth && minY <= maxY < gridHeight
    {
      WorldToCellValid(centerX + radius, centerY + radius);
      AxisToCellMonotone(centerX - radius, centerX + radius, offsetX, worldWidth, cellSize);
      AxisToCellMonotone(centerY - radius, centerY + radius, offsetY, worldHeight, cellSize);
    }

    /** A position inside the circle lies in a cell of the box. */
    lemma QueryBoxCovers(centerX: int, centerY: int, radius: int, x: int, y: int, cellX: u32, cellY: u32)
      requires cellSize > 0 && radius >= 0 && QueryBox(centerX, centerY, radius).Some? && WorldToCell(x, y) == Some((cellX, cellY))
      requires Sq(x - centerX) + Sq(y - centerY) <= Sq(radius)
      ensures var box := QueryBox(centerX, centerY, radius).value;
        box.0 <= cellX <= box.2 && box.1 <= cellY <= box.3
    {
      SqBound(x - centerX, radius);
      SqBound(y - centerY, radius);
      AxisToCellMonotone(centerX - radius, x, offsetX, worldWidth, cellSize);
      AxisToCellMonotone(x, centerX + radius, offsetX, worldWidth, cellSize);
      AxisToCellMonotone(centerY - radius, y, offsetY, worldHeight, cellSize);
      AxisToCellMonotone(y, centerY + radius, offsetY, worldHeight, cellSize);
    }

    /** What a query of this grid scans, with the objects' current state given by `world`. */
    function ScanOf(world: map<nat, Entity>, circle: Circle, includeStatic: bool): Scan
      reads this`store
    {
      Scan(store.cells, store.entries, gridWidth, world, circle, includeStatic)
    }

    /**
     * spatial_grid_query_circle: for a positive radius inside the grid, the first maxResults
     * objects of a scan of the box's cells row by row, each list head first, that are active,
     * pass the static filter and lie within the circle; the counter of queries is bumped.
     * `world` gives each object's current activity and transform position. The grid's
     * contents are outside the frame, so Valid() is kept.
     */
    method QueryCircle(centerX: int, centerY: int, radius: int, query: SpatialQuery, world: map<nat, Entity>)
      returns (count: u32)
      requires Valid() && query.Valid()
      modifies this`queriesPerFrame, query, query.results
      ensures query.Valid()
      ensures query.results == old(query.results) && query.maxResults == old(query.maxResults)
      ensures query.includeStatic == old(query.includeStatic)
      ensures query.queryWidth == old(query.queryWidth) && query.queryHeight == old(query.queryHeight)
      ensures radius <= 0 ==>
        count == 0 && unchanged(query) && unchanged(query.results) && queriesPerFrame == old(queriesPerFrame)
      ensures radius > 0 ==>
        count == query.resultCount && query.queryX == centerX && query.queryY == centerY && query.queryRadius == radius
      ensures radius > 0 && QueryBox(centerX, centerY, radius).None? ==>
        count == 0 && unchanged(query.results) && queriesPerFrame == old(queriesPerFrame)
      ensures radius > 0 && QueryBox(centerX, centerY, radius).Some? ==>
        queriesPerFrame == Wrap32(old(queriesPerFrame) + 1) &&
        var box := QueryBox(centerX, centerY, radius).value;
        BoxScanned(old(ScanOf(world, Circle(centerX, centerY, radius), query.includeStatic)),
                   box, query.results[..count], query.results.Length)
    {
      if radius <= 0 {
        return 0;
      }
      var box := QueryBox(centerX, centerY, radius);
      if box.None? {
        query.resultCount := 0;
        query.queryX, query.queryY, query.queryRadius := centerX, centerY, radius;
        return 0;
      }
      count := QueryInBox(centerX, centerY, radius, box.value, query, world);
    }

    /** spatial_grid_query_circle once both corners of the bounding square are inside the grid. */
    method QueryInBox(centerX: int, centerY: int, radius: int, box: (u32, u32, u32, u32), query: SpatialQuery,
                      world: map<nat, Entity>) returns (count: u32)
      requires Valid() && query.Valid() && radius > 0 && QueryBox(centerX, centerY, radius) == Some(box)
      modifies this`queriesPerFrame, query, query.results
      ensures query.Valid() && query.results == old(query.results) && query.maxResults == old(query.maxResults)
      ensures query.includeStatic == old(query.includeStatic) && count == query.resultCount
      ensures query.queryX == centerX && query.queryY == centerY && query.queryRadius == radius
      ensures query.queryWidth == old(query.queryWidth) && query.queryHeight == old(query.queryHeight)
      ensures queriesPerFrame == Wrap32(old(queriesPerFrame) + 1)
      ensures BoxScanned(old(ScanOf(world, Circle(centerX, centerY, radius), query.includeStatic)),
                         box, query.results[..count], query.results.Length)
    {
      QueryBoxValid(centerX, centerY, radius);
      var sc := ScanOf(world, Circle(centerX, centerY, radius), query.includeStatic);
      GridScanReady(store, entryPool.Allocated(), sc, gridHeight);
      count := ScanBox(sc, gridHeight, box, query);
      queriesPerFrame := Wrap32(queriesPerFrame + 1);
    }

    /**
     * Completeness of a circle query: an object tracked with an up-to-date cell that is a hit
     * is among what the scan of the box finds (and so among the results when fewer than
     * maxResults are found).
     */
    lemma QueryFindsTracked(centerX: int, centerY: int, radius: int, world: map<nat, Entity>, includeStatic: bool, s: u32)
      requires Valid() && radius > 0 && QueryBox(centerX, centerY, radius).Some?
      requires s in entryPool.Allocated()
      requires var e := store.entries[s];
        e.gameObject in world && WorldToCell(world[e.gameObject].x, world[e.gameObject].y) == Some((e.cellX, e.cellY)) &&
        Hit(ScanOf(world, Circle(centerX, centerY, radius), includeStatic), e)
      ensures store.entries[s].gameObject in
        CellsHits(ScanOf(world, Circle(centerX, centerY, radius), includeStatic), BoxCells(QueryBox(centerX, centerY, radius).value, gridWidth))
    {
      var e := store.entries[s];
      QueryBoxCovers(centerX, centerY, radius, world[e.gameObject].x, world[e.gameObject].y, e.cellX, e.cellY);
      BoxHitFound(store, entryPool.Allocated(), gridWidth, gridHeight, ScanOf(world, Circle(centerX, centerY, radius), includeStatic),
                  QueryBox(centerX, centerY, radius).value, s);
    }

    /**
     * spatial_grid_destroy: free every entry still listed in a cell, which leaves nothing
     * allocated in the entry pool, then destroy the pool. Releasing the cell array, the
     * lookup table and the grid itself is memory management the model leaves out.
     */
    method Destroy()
      requires Valid()
      modifies entryPool
      ensures entryPool.Valid() && entryPool.memory == 0 && entryPool.capacity == 0 && entryPool.freeCount == 0
      ensures entryPool.freeList == [] && entryPool.objectStates == []
    {
      FreeCells(entryPool, store.cells, store.entries, gridWidth, gridHeight);
      entryPool.Destroy();
    }

    /** The list unlink, counters and lookup clear of spatial_grid_remove_object for a tracked id. */
    method UnlinkEntry(id: u32)
      requires Valid() && LookupSlot(store, id).Some?
      modifies this
      ensures Removable(old(store), id, gridWidth) && store == RemoveEntry(old(store), id, gridWidth)
      ensures var s := LookupSlot(old(store), id).value; LinkReady(s, store.entries[s])
      ensures queriesPerFrame == old(queriesPerFrame) && collisionChecksPerFrame == old(collisionChecksPerFrame)
    {
      ghost var s := LookupSlot(store, id).value;
      ghost var live := entryPool.Allocated();
      RemoveKeepsInv(store, live, gridWidth, gridHeight, id);
      store := RemoveEntry(store, id, gridWidth);
      assert entryPool.Allocated() - {s} == live - {s};
    }
  }
}
