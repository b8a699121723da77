# Kanban board drag-and-drop engine, modelled in Dafny

This project models the reconciliation engine of the recursive kanban board in
`components/board/KanbanBoard.tsx`. The board holds a forest of columns. A column may have
child columns, and the board shows the forest flattened depth-first. It also holds one global
array of cars. A car belongs to the column whose id is its `columnId`, and a column's lane is
the cars of that column, taken in global order. Three drag handlers, `onDragStart`,
`onDragOver` and `onDragEnd`, read dnd-kit entries: an id plus a payload tagged `"Column"` or
`"Car"`. From these entries they update the lifted (overlay) column or car, the column forest
and the car array.

Modules, leaves first:

- `BoardTypes` (board_types.dfy): `Column`, `NestedColumn` (whose optional `children` field
  is the datatype `Subcolumns = Absent | Present(nodes)`), `Car`, the drag `Payload`
  (`ColumnPayload | CarPayload | ForeignPayload(tag) | NoPayload`) and `DragEntry`.
- `Sortable` (sortable.dfy): `ArrayMove` (remove at `from`, insert at `to`, the relocation of
  `@dnd-kit/sortable`) and `IndexOf` (`findIndex`, where `None` stands for −1).
- `ColumnTree` (column_tree.dfy): `Flatten` (`flattenColumns`), node count, pre-order and
  idempotence.
- `Lanes` (lanes.dfy): `CarsIn`, which is the per-column filter `cars.filter(car =>
  car.columnId === col.id)`, and how relocations and reassignments act on lanes.
- `DragData` (drag_data.dfy): `HasDraggableData` and the destination column of a car drop.
- `Reconcile` (reconcile.dfy): what each event does to the forest and the car array, as
  functions of the state before the event, together with the lemmas about them.
  `ColumnDrop` is the column branch of `onDragEnd` (lines 226-230), and `CommitColumnChange`
  and `CarDrop` are its car branch (lines 231-252); `ColumnsAfterDragEnd` and
  `CarsAfterDragEnd` combine them with the handler's early returns (lines 208-254).
  `CarOverCar` (lines 276-287) and `CarOverColumn` (lines 293-301) are the two branches of
  `onDragOver`, and `CarsAfterDragOver` combines them with its early returns (lines
  256-303).
- `KanbanBoard` (kanban_board.dfy): the fixtures `DefaultCols` and `InitialCars`, and the
  class `Board`. `Board` has the component's four state variables as fields and one method
  per drag handler; each method's `ensures` ties the new state to the `Reconcile` functions.
  The module also holds the scenario lemmas and a client method,
  `CancelledDragKeepsHoverChange`. That method drags `mb` over `vw`, then ends the drag with
  no target, and checks that the provisional column change stays.

Modelling decisions:

- `UniqueIdentifier` is modelled by its string form. The truthiness test on `newColumnId` at
  line 243 becomes `newColumnId != ""`.
- The car inside the active payload (`active.data.current.car`, line 238) is an input
  separate from `cars`, because it may lag behind the array.
- The in-place assignments `activeCar.columnId = …` (lines 282 and 297) become functional
  updates of the `cars` sequence.
- When `findIndex` finds nothing (−1), or when the target index `overIndex - 1` is −1, the
  model skips the relocation. The code does not guard against these cases: it passes the
  negative index to `arrayMove`, whose meaning lives in `@dnd-kit/sortable`, which is not
  part of this model. In the cross-column hover with `overIndex == 0`, the model still
  reassigns the column; only the move is skipped.

Behaviour of the code that is easy to misread:

- A column drop relocates among the top-level nodes of the forest (`columns.findIndex`,
  lines 227-228), not among the flat projection. For a nested column, the lookup fails.
- In a cross-column hover, the car is moved to index `overIndex - 1`. It ends immediately
  before the over car only when it came from a lower index. When it came from a higher index,
  one other car sits between them. In both cases it precedes the over car
  (`Reconcile.CarOverCarAcross`).
- `onDragStart` sets one overlay variable and leaves the other as it was (lines 194-206).
  "At most one lifted entity" therefore holds only when the drag starts from an empty overlay
  (`Board.OnDragStart`).
- Referential integrity holds only if the drop target names a board column. The code takes
  the id of an untagged target, or the `columnId` of a car target's payload, without checking
  it (`Reconcile.DragEndKeepsRefs`).

## Model

| member | source | states |
|---|---|---|
| `Sortable.ArrayMove` | components/board/KanbanBoard.tsx:229 | relocation keeps the length, puts the moved element at `to`, shifts the elements between `from` and `to` by one slot towards `from`, leaves the rest in place, and is the identity when `from == to` |
| `Sortable.ArrayMovePermutes` | components/board/KanbanBoard.tsx:250 | a relocation is a permutation: the multiset of elements is unchanged |
| `Sortable.IndexOf` | components/board/KanbanBoard.tsx:227-228 | `findIndex` gives the first position holding the id, and reports "not found" exactly when the id does not occur |
| `ColumnTree.FlattenSize` | components/board/KanbanBoard.tsx:165-169 | the flat projection has exactly one entry per node of the forest, at every depth |
| `ColumnTree.FlattenAppend` | components/board/KanbanBoard.tsx:166 | `flatMap` distributes over concatenation of sibling lists |
| `ColumnTree.FlattenPreOrder` | components/board/KanbanBoard.tsx:165-169 | the i-th top-level node comes after all subtrees of its earlier siblings, is followed at once by its own descendants, then by the later siblings' subtrees |
| `ColumnTree.FlattenIsWalk` | components/board/KanbanBoard.tsx:165-169 | the projection equals an independent depth-first pre-order traversal by work list (emit the head node, replace it by its children) |
| `ColumnTree.FlattenOfFlat` | components/board/KanbanBoard.tsx:167 | a forest of childless nodes flattens to the same columns in the same order |
| `ColumnTree.FlattenFlatIdentity` | components/board/KanbanBoard.tsx:165-169 | on a forest where no node has a `children` field, flattening is the identity |
| `ColumnTree.FlattenIdempotent` | components/board/KanbanBoard.tsx:165-169 | the output has no `children`, and flattening it again gives it back (`flatten(flatten(F)) == flatten(F)`) |
| `Lanes.LaneMembers` | components/board/KanbanBoard.tsx:177 | a column's lane holds exactly the cars whose `columnId` is that column (both directions), and is no longer than the board |
| `Lanes.LaneKeepsGlobalOrder` | components/board/KanbanBoard.tsx:177 | every lane is a subsequence of the global array: cards of a column keep their global relative order |
| `Lanes.ArrayMoveLanes` | components/board/KanbanBoard.tsx:177 | relocating a car keeps every lane's size, and leaves every lane other than the moved car's own unchanged |
| `Lanes.UpdateLanes` | components/board/KanbanBoard.tsx:177 | replacing one car moves one card from its old lane to the new car's lane and leaves every other lane unchanged |
| `DragData.HasDraggableData` | components/board/KanbanBoard.tsx:146-162 | an entry is accepted exactly when it exists and its tag is `"Column"` or `"Car"`; null, no payload and any other tag (such as `"Task"`) are rejected |
| `DragData.ResolveDestination` | components/board/KanbanBoard.tsx:232-236 | the drop column is the payload car's `columnId` for a car target, and the target's own id for a column target or an untagged target |
| `Reconcile.UnresolvedIdsChangeNothing` | components/board/KanbanBoard.tsx:276-300 | a column drop or a hover that names an id not in the searched sequence changes nothing (the not-found policy chosen by the model) |
| `Reconcile.ColumnDropRelocates` | components/board/KanbanBoard.tsx:225-230 | a column drop moves the active top-level column into the over column's slot, shifts the columns between by one, keeps the others in place, and permutes the top-level forest |
| `Reconcile.ColumnDropKeepsFlatColumns` | components/board/KanbanBoard.tsx:226-230 | a column drop permutes the flat projection: every column at every depth stays on the board |
| `Reconcile.CarOverColumnReassigns` | components/board/KanbanBoard.tsx:292-301 | a car hovering over a column gets that column's id; no other car changes, the global order is unchanged (`arrayMove(i, i)`), and no lane other than the old lane and the new lane changes |
| `Reconcile.CarOverCarAcross` | components/board/KanbanBoard.tsx:275-284 | across columns, the car takes the over car's column and lands at `overIndex - 1`. It is immediately before the over car when it came from above, and one slot earlier when it came from below. No car is added or removed: the result is a permutation of the old cars with the active one reassigned |
| `Reconcile.CarOverCarAcrossLanes` | components/board/KanbanBoard.tsx:281-283 | in a cross-column hover, the active car's old lane loses one card, the over car's lane gains one, and every other lane is unchanged |
| `Reconcile.CarOverCarWithin` | components/board/KanbanBoard.tsx:286 | within a column, the hover equals `arrayMove(cars, activeIndex, overIndex)`, so it puts the active car at the over car's index and shifts the cars between by one; it is a permutation that keeps every lane's size (the multiset of `columnId`s) and reorders only that column's lane |
| `Reconcile.CarDropReassigns` | components/board/KanbanBoard.tsx:238-245 | when the destination differs from the payload's column, only the active car's `columnId` changes (unless the destination is the falsy empty id), and order and the other cars stay as they were |
| `Reconcile.CarDropRelocates` | components/board/KanbanBoard.tsx:246-251 | when the destination equals the payload's column, the drop is a pure relocation to the over entry's index: a permutation that keeps every lane's size, and the identity when either id is missing |
| `Reconcile.DragOverKeepsRefs` | components/board/KanbanBoard.tsx:256-303 | hovering keeps every car's `columnId` pointing at a board column, provided a column target's id is a board column (a car target needs nothing: the hover copies the over car's own `columnId`, line 282) |
| `Reconcile.DragEndKeepsRefs` | components/board/KanbanBoard.tsx:208-254 | dropping keeps every car's `columnId` pointing at a board column (of the forest after the drop), provided the target names one |
| `KanbanBoard.Board.constructor` | components/board/KanbanBoard.tsx:132-135 | the board starts with the default forest, the initial cars, no lifted column or car, and consistent references |
| `KanbanBoard.Board.OnDragStart` | components/board/KanbanBoard.tsx:194-206 | records the lifted column or car from the payload and nothing else; an unclassified entry changes nothing; at most one entity is lifted when none was before |
| `KanbanBoard.Board.OnDragOver` | components/board/KanbanBoard.tsx:256-303 | the car array becomes `CarsAfterDragOver` of the old one; the forest and the overlay are untouched; consistency is kept when a column target's id is a board column |
| `KanbanBoard.Board.OnDragEnd` | components/board/KanbanBoard.tsx:208-254 | both overlay variables are cleared on every call; with no target or a self-drop, the forest and the cars are unchanged (provisional hover changes are not rolled back); otherwise the column drop or car drop is committed; consistency is kept |
| `KanbanBoard.DefaultFlatOrder` | components/board/KanbanBoard.tsx:28-54 | the default forest flattens to List, American, European, German, Italian, Swedish, Asian, Japanese, Korean |
| `KanbanBoard.InitialBoardConsistent` | components/board/KanbanBoard.tsx:58-129 | every initial car names a column of the default forest |
| `KanbanBoard.AmericanDroppedOnAsian` | components/board/KanbanBoard.tsx:225-230 | dropping American on Asian gives the top-level order List, European, Asian, American |
| `KanbanBoard.MercedesOverVolkswagen` | components/board/KanbanBoard.tsx:275-284 | hovering `mb` over `vw` moves `mb` into the list column, immediately before `vw` |
| `KanbanBoard.ToyotaDroppedOnGerman` | components/board/KanbanBoard.tsx:231-245 | dropping `toyota` on the German column changes its column to `german-cars` and nothing else, its position included |

## Left out

- React state hooks, `useMemo`/`useCallback`/`useId`, and all JSX: `renderNestedColumns`'
  markup and its rule that a parent lane is shown only when it has cards (lines 175-192), and
  the `DragOverlay` portal (lines 318-331). These are presentation. Setters are field
  assignments.
- The dnd-kit sensors and `coordinateGetter` (lines 138-144): pointer and keyboard plumbing
  from a library and a file that are not part of this model.
- `arrayMove` with a negative index, i.e. `findIndex` returning −1 at lines 229, 250 and 286,
  and `overIndex - 1 == -1` at line 283. Its behaviour is defined in `@dnd-kit/sortable`,
  which is not part of this model. The model skips the relocation instead. The line-286 case
  (either car missing) is the first branch of `Reconcile.CarOverCar`, which returns the array
  unchanged.
- The aliasing created by the in-place `activeCar.columnId = …` (lines 282 and 297), which
  also changes the car object in the previous state and every payload that shares it. The
  model updates `cars` functionally and takes the active payload's car as a separate input.
- The numeric form of `UniqueIdentifier`; in particular, the falsy id `0` is not modelled.
- `async` on `onDragEnd`, which plays no role in the logic.
- BoardColumn.tsx, CarCard.tsx and TaskCard.tsx beyond their type and tag declarations
  (`useSortable`, CSS transforms, styling); Header.tsx (a network fetch of a star count);
  ThemeToggle.tsx, Footer.tsx and app/page.tsx (static markup and theme handling).
- Reconcile.CarOverCarAcross: states the "lands before the over car" position only when the
  over car is not the first car of the board, because that case needs the relocation to index −1.
- Reconcile.DragEndKeepsRefs: the integrity invariant is conditional on the target naming a
  board column, because the code trusts an untagged target's id and a car payload's
  `columnId` without checking them.
