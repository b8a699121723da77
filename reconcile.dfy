/** The board's reconciliation engine as functions of the state before an event: what
    `onDragOver` and `onDragEnd` (KanbanBoard.tsx) make of the column forest and the car array.
    An index that `findIndex` does not find skips the relocation (see README). */
module Reconcile {
  import opened BoardTypes
  import opened Sortable
  import opened ColumnTree
  import opened Lanes
  import opened DragData

  /** Column drop: relocate the active column to the over column's slot among the
      TOP-LEVEL nodes of the forest. */
  function ColumnDrop(columns: seq<NestedColumn>, activeId: Id, overId: Id): seq<NestedColumn>
  {
    var from := IndexOf(TopIds(columns), activeId);
    var to := IndexOf(TopIds(columns), overId);
    if from.Some? && to.Some? then ArrayMove(columns, from.value, to.value) else columns
  }

  /** Car hovering over a car. Across columns, the active car takes the over car's column and
      moves to one slot below the over car's index; within a column it moves to that index. */
  function CarOverCar(cars: seq<Car>, activeId: Id, overId: Id): seq<Car>
  {
    var activeIndex := IndexOf(CarIds(cars), activeId);
    var overIndex := IndexOf(CarIds(cars), overId);
    if activeIndex.None? || overIndex.None? then cars
    else
      var a, o := activeIndex.value, overIndex.value;
      if cars[a].columnId != cars[o].columnId then
        var reassigned := cars[a := cars[a].(columnId := cars[o].columnId)];
        if o == 0 then reassigned else ArrayMove(reassigned, a, o - 1)
      else
        ArrayMove(cars, a, o)
  }

  /** Car hovering over a column: the active car takes the column's id, and is "moved" to the
      index it already has. */
  function CarOverColumn(cars: seq<Car>, activeId: Id, overId: Id): seq<Car>
  {
    var activeIndex := IndexOf(CarIds(cars), activeId);
    if activeIndex.None? then cars
    else
      var a := activeIndex.value;
      ArrayMove(cars[a := cars[a].(columnId := overId)], a, a)
  }

  /** The car array after `onDragOver`. */
  function CarsAfterDragOver(cars: seq<Car>, active: DragEntry, over: Option<DragEntry>): seq<Car>
  {
    if over.None? || active.id == over.value.id then cars
    else if !HasDraggableData(Some(active)) || !HasDraggableData(over) then cars
    else if !active.data.CarPayload? then cars
    else if over.value.data.CarPayload? then CarOverCar(cars, active.id, over.value.id)
    else CarOverColumn(cars, active.id, over.value.id)
  }

  /** `cars.map(car => car.id === activeId && newColumnId ? { ...car, columnId: newColumnId } : car)`;
      the empty id is the only falsy string. */
  function CommitColumnChange(cars: seq<Car>, activeId: Id, newColumnId: Id): seq<Car>
  {
    seq(|cars|, k requires 0 <= k < |cars| =>
      if cars[k].id == activeId && newColumnId != "" then cars[k].(columnId := newColumnId) else cars[k])
  }

  /** Car drop. `payload` is the car recorded in the active entry, which may lag behind `cars`. */
  function CarDrop(cars: seq<Car>, activeId: Id, payload: Car, over: DragEntry): seq<Car>
  {
    var newColumnId := ResolveDestination(over);
    if payload.columnId != newColumnId then CommitColumnChange(cars, activeId, newColumnId)
    else
      var oldIndex := IndexOf(CarIds(cars), activeId);
      var newIndex := IndexOf(CarIds(cars), over.id);
      if oldIndex.Some? && newIndex.Some? then ArrayMove(cars, oldIndex.value, newIndex.value)
      else cars
  }

  /** `onDragEnd` gets past its early returns: there is a target, the active entry is draggable
      data and it was not dropped on itself. */
  predicate DropCommits(active: DragEntry, over: Option<DragEntry>)
  {
    over.Some? && HasDraggableData(Some(active)) && active.id != over.value.id
  }

  /** The column forest after `onDragEnd`. */
  function ColumnsAfterDragEnd(columns: seq<NestedColumn>, active: DragEntry, over: Option<DragEntry>)
    : seq<NestedColumn>
  {
    if DropCommits(active, over) && active.data.ColumnPayload?
    then ColumnDrop(columns, active.id, over.value.id)
    else columns
  }

  /** The car array after `onDragEnd`. */
  function CarsAfterDragEnd(cars: seq<Car>, active: DragEntry, over: Option<DragEntry>): seq<Car>
  {
    if DropCommits(active, over) && active.data.CarPayload?
    then CarDrop(cars, active.id, active.data.car, over.value)
    else cars
  }

  // ---------------------------------------------------------------------------------------
  // Properties of the column drop

  /** A column drop moves the active top-level column into the over column's slot, shifts the
      columns in between by one and is a permutation of the top-level forest. */
  lemma ColumnDropRelocates(columns: seq<NestedColumn>, activeId: Id, overId: Id)
    requires activeId in TopIds(columns) && overId in TopIds(columns)
    ensures var from, to := IndexOf(TopIds(columns), activeId).value, IndexOf(TopIds(columns), overId).value;
            var r := ColumnDrop(columns, activeId, overId);
            && |r| == |columns|
            && multiset(r) == multiset(columns)
            && r[to] == columns[from] && r[to].id == activeId
            && (forall k :: from <= k < to ==> r[k] == columns[k + 1])
            && (forall k :: to < k <= from ==> r[k] == columns[k - 1])
            && (forall k :: 0 <= k < |r| && ((k < from && k < to) || (k > from && k > to)) ==> r[k] == columns[k])
  {
    var from, to := IndexOf(TopIds(columns), activeId).value, IndexOf(TopIds(columns), overId).value;
    ArrayMovePermutes(columns, from, to);
  }

  /** An event naming an id that is not in the sequence it is looked up in changes nothing. */
  lemma UnresolvedIdsChangeNothing(columns: seq<NestedColumn>, cars: seq<Car>, activeId: Id, overId: Id)
    ensures activeId !in TopIds(columns) || overId !in TopIds(columns) ==>
              ColumnDrop(columns, activeId, overId) == columns
    ensures activeId !in CarIds(cars) || overId !in CarIds(cars) ==>
              CarOverCar(cars, activeId, overId) == cars
    ensures activeId !in CarIds(cars) ==> CarOverColumn(cars, activeId, overId) == cars
  {
  }

  lemma FlattenInsert(front: seq<NestedColumn>, col: NestedColumn, back: seq<NestedColumn>)
    ensures Flatten(front + [col] + back) == Flatten(front) + Flatten([col]) + Flatten(back)
    ensures Flatten(front + back) == Flatten(front) + Flatten(back)
  {
    FlattenAppend(front + [col], back);
    FlattenAppend(front, [col]);
    FlattenAppend(front, back);
  }

  lemma MultisetReinsert<T>(front: seq<T>, mid: seq<T>, back: seq<T>, pre: seq<T>, post: seq<T>)
    requires front + back == pre + post
    ensures multiset(front + mid + back) == multiset(pre + mid + post)
  {
    calc {
      multiset(front + mid + back);
      multiset(front + back) + multiset(mid);
      multiset(pre + post) + multiset(mid);
      multiset(pre + mid + post);
    }
  }

  /** Taking a top-level node out and putting it back elsewhere permutes the flat projection. */
  lemma ReinsertFlatten(pre: seq<NestedColumn>, post: seq<NestedColumn>,
                        front: seq<NestedColumn>, back: seq<NestedColumn>, col: NestedColumn)
    requires pre + post == front + back
    ensures multiset(Flatten(front + [col] + back)) == multiset(Flatten(pre + [col] + post))
  {
    FlattenInsert(front, col, back);
    FlattenInsert(pre, col, post);
    MultisetReinsert(Flatten(front), Flatten([col]), Flatten(back), Flatten(pre), Flatten(post));
  }

  lemma FlattenArrayMove(columns: seq<NestedColumn>, from: nat, to: nat)
    requires from < |columns| && to < |columns|
    ensures multiset(Flatten(ArrayMove(columns, from, to))) == multiset(Flatten(columns))
  {
    var rest := columns[..from] + columns[from + 1..];
    ArrayMoveSplit(columns, from, to);
    ReinsertFlatten(columns[..from], columns[from + 1..], rest[..to], rest[to..], columns[from]);
  }

  /** A column drop permutes the flat projection: every column, at every depth, is still
      there exactly once as often as before. */
  lemma ColumnDropKeepsFlatColumns(columns: seq<NestedColumn>, activeId: Id, overId: Id)
    ensures multiset(Flatten(ColumnDrop(columns, activeId, overId))) == multiset(Flatten(columns))
  {
    var from := IndexOf(TopIds(columns), activeId);
    var to := IndexOf(TopIds(columns), overId);
    if from.Some? && to.Some? {
      FlattenArrayMove(columns, from.value, to.value);
    }
  }

  // ---------------------------------------------------------------------------------------
  // Properties of hovering a car (onDragOver)

  /** Over a column, only the active car's `columnId` changes (to the over id): the global
      order is kept, no car is added or removed, and the other lanes are untouched. */
  lemma CarOverColumnReassigns(cars: seq<Car>, activeId: Id, overId: Id)
    requires activeId in CarIds(cars)
    ensures var a := IndexOf(CarIds(cars), activeId).value;
            var r := CarOverColumn(cars, activeId, overId);
            && |r| == |cars| && CarIds(r) == CarIds(cars)
            && r[a] == cars[a].(columnId := overId)
            && (forall k :: 0 <= k < |cars| && k != a ==> r[k] == cars[k])
            && (forall c :: c != cars[a].columnId && c != overId ==> CarsIn(r, c) == CarsIn(cars, c))
  {
    var a := IndexOf(CarIds(cars), activeId).value;
    var moved := cars[a].(columnId := overId);
    var r := CarOverColumn(cars, activeId, overId);
    assert r == cars[a := moved];
    forall c | c != cars[a].columnId && c != overId
      ensures CarsIn(r, c) == CarsIn(cars, c)
    {
      UpdateLanes(cars, a, moved, c);
    }
  }

  /** Moving the element at `a` to one slot below index `o`: it ends right before the
      element that was at `o` when it came from above, two slots before it when from below. */
  lemma MoveBelow<T>(s: seq<T>, a: nat, o: nat)
    requires a < |s| && 0 < o < |s| && a != o
    ensures ArrayMove(s, a, o - 1)[o - 1] == s[a]
    ensures a < o ==> ArrayMove(s, a, o - 1)[o] == s[o]
    ensures o < a ==> ArrayMove(s, a, o - 1)[o + 1] == s[o]
  {
  }

  /** Over a car of another column: the active car takes that column and is relocated to one
      slot below the over car's index. It then precedes the over car: immediately when it came
      from above, with one car between them when it came from below. No car is added or
      removed. When the over car is the first car of the board, only the column changes. */
  lemma CarOverCarAcross(cars: seq<Car>, activeId: Id, overId: Id, a: nat, o: nat)
    requires IndexOf(CarIds(cars), activeId) == Some(a) && IndexOf(CarIds(cars), overId) == Some(o)
    requires cars[a].columnId != cars[o].columnId
    ensures |CarOverCar(cars, activeId, overId)| == |cars|
    ensures multiset(CarOverCar(cars, activeId, overId))
            == multiset(cars[a := cars[a].(columnId := cars[o].columnId)])
    ensures o == 0 ==> CarOverCar(cars, activeId, overId) == cars[a := cars[a].(columnId := cars[o].columnId)]
    ensures o > 0 ==> CarOverCar(cars, activeId, overId)[o - 1] == cars[a].(columnId := cars[o].columnId)
    ensures 0 < o && a < o ==> CarOverCar(cars, activeId, overId)[o] == cars[o]
    ensures 0 < o && o < a ==> CarOverCar(cars, activeId, overId)[o + 1] == cars[o]
  {
    var reassigned := cars[a := cars[a].(columnId := cars[o].columnId)];
    var r := CarOverCar(cars, activeId, overId);
    assert r == if o == 0 then reassigned else ArrayMove(reassigned, a, o - 1);
    if o > 0 {
      ArrayMovePermutes(reassigned, a, o - 1);
      MoveBelow(reassigned, a, o);
    }
  }

  /** The lanes after a cross-column hover: the active car's old lane loses one card, the
      over car's lane gains one, and every other lane is unchanged. */
  lemma CarOverCarAcrossLanes(cars: seq<Car>, activeId: Id, overId: Id, a: nat, o: nat, columnId: Id)
    requires IndexOf(CarIds(cars), activeId) == Some(a) && IndexOf(CarIds(cars), overId) == Some(o)
    requires cars[a].columnId != cars[o].columnId
    ensures |CarsIn(CarOverCar(cars, activeId, overId), columnId)| + (if cars[a].columnId == columnId then 1 else 0)
            == |CarsIn(cars, columnId)| + (if cars[o].columnId == columnId then 1 else 0)
    ensures columnId != cars[a].columnId && columnId != cars[o].columnId ==>
              CarsIn(CarOverCar(cars, activeId, overId), columnId) == CarsIn(cars, columnId)
  {
    var moved := cars[a].(columnId := cars[o].columnId);
    var reassigned := cars[a := moved];
    assert CarOverCar(cars, activeId, overId) == if o == 0 then reassigned else ArrayMove(reassigned, a, o - 1);
    UpdateLanes(cars, a, moved, columnId);
    if o > 0 {
      ArrayMoveLanes(reassigned, a, o - 1, columnId);
    }
  }

  /** Over a car of the same column: a plain relocation to the over car's index. It is a
      permutation, so every lane keeps its size (the multiset of column ids is unchanged), and
      only the active car's own lane is reordered. */
  lemma CarOverCarWithin(cars: seq<Car>, activeId: Id, overId: Id, a: nat, o: nat)
    requires IndexOf(CarIds(cars), activeId) == Some(a) && IndexOf(CarIds(cars), overId) == Some(o)
    requires cars[a].columnId == cars[o].columnId
    ensures CarOverCar(cars, activeId, overId) == ArrayMove(cars, a, o)
    ensures multiset(CarOverCar(cars, activeId, overId)) == multiset(cars)
    ensures CarOverCar(cars, activeId, overId)[o] == cars[a]
    ensures forall c :: |CarsIn(CarOverCar(cars, activeId, overId), c)| == |CarsIn(cars, c)|
    ensures forall c :: c != cars[a].columnId ==>
              CarsIn(CarOverCar(cars, activeId, overId), c) == CarsIn(cars, c)
  {
    var r := CarOverCar(cars, activeId, overId);
    assert r == ArrayMove(cars, a, o);
    ArrayMovePermutes(cars, a, o);
    forall c
      ensures |CarsIn(r, c)| == |CarsIn(cars, c)|
      ensures c != cars[a].columnId ==> CarsIn(r, c) == CarsIn(cars, c)
    {
      ArrayMoveLanes(cars, a, o, c);
    }
  }

  // ---------------------------------------------------------------------------------------
  // Properties of dropping a car (onDragEnd)

  /** When the resolved destination differs from the payload's column, the drop only rewrites
      the `columnId` of the car(s) with the active id (unless the destination is the empty,
      falsy id); the global order and every other car are untouched. */
  lemma CarDropReassigns(cars: seq<Car>, activeId: Id, payload: Car, over: DragEntry)
    requires payload.columnId != ResolveDestination(over)
    ensures var dest := ResolveDestination(over);
            var r := CarDrop(cars, activeId, payload, over);
            && |r| == |cars| && CarIds(r) == CarIds(cars)
            && (forall k :: 0 <= k < |cars| && (cars[k].id != activeId || dest == "") ==> r[k] == cars[k])
            && (forall k :: 0 <= k < |cars| && cars[k].id == activeId && dest != "" ==>
                  r[k].columnId == dest && r[k].content == cars[k].content)
  {
  }

  /** When the destination equals the payload's column, the drop is a pure relocation of the
      active car to the over entry's index among the cars: a permutation in which every lane
      keeps its size. */
  lemma CarDropRelocates(cars: seq<Car>, activeId: Id, payload: Car, over: DragEntry)
    requires payload.columnId == ResolveDestination(over)
    ensures var r := CarDrop(cars, activeId, payload, over);
            && multiset(r) == multiset(cars)
            && (forall c :: |CarsIn(r, c)| == |CarsIn(cars, c)|)
            && (activeId in CarIds(cars) && over.id in CarIds(cars) ==>
                  r[IndexOf(CarIds(cars), over.id).value] == cars[IndexOf(CarIds(cars), activeId).value])
            && (activeId !in CarIds(cars) || over.id !in CarIds(cars) ==> r == cars)
  {
    var oldIndex := IndexOf(CarIds(cars), activeId);
    var newIndex := IndexOf(CarIds(cars), over.id);
    var r := CarDrop(cars, activeId, payload, over);
    if oldIndex.Some? && newIndex.Some? {
      ArrayMovePermutes(cars, oldIndex.value, newIndex.value);
      forall c ensures |CarsIn(r, c)| == |CarsIn(cars, c)| {
        ArrayMoveLanes(cars, oldIndex.value, newIndex.value, c);
      }
    }
  }

  // ---------------------------------------------------------------------------------------
  // Referential integrity: every car names a column of the board

  ghost predicate RefsValid(cars: seq<Car>, columns: seq<NestedColumn>)
  {
    forall k :: 0 <= k < |cars| ==> cars[k].columnId in ColumnIds(Flatten(columns))
  }

  /** The column a target would send a car to is a column of the board. */
  ghost predicate TargetsColumn(over: Option<DragEntry>, columns: seq<NestedColumn>)
  {
    over.Some? ==> ResolveDestination(over.value) in ColumnIds(Flatten(columns))
  }

  /** A hover can only send a car to a column through a column target's id; a car target
      hands over the over car's own `columnId`, which the array already holds. */
  ghost predicate HoverTargetsColumn(over: Option<DragEntry>, columns: seq<NestedColumn>)
  {
    over.Some? && over.value.data.ColumnPayload? ==> over.value.id in ColumnIds(Flatten(columns))
  }

  lemma RefsValidPermutation(r: seq<Car>, cars: seq<Car>, columns: seq<NestedColumn>)
    requires multiset(r) == multiset(cars) && RefsValid(cars, columns)
    ensures RefsValid(r, columns)
  {
    forall k | 0 <= k < |r| ensures r[k].columnId in ColumnIds(Flatten(columns)) {
      assert r[k] in multiset(r);
      assert r[k] in cars;
    }
  }

  lemma RefsValidUpdate(cars: seq<Car>, i: nat, car: Car, columns: seq<NestedColumn>)
    requires i < |cars| && RefsValid(cars, columns)
    requires car.columnId in ColumnIds(Flatten(columns))
    ensures RefsValid(cars[i := car], columns)
  {
  }

  lemma RefsValidColumns(cars: seq<Car>, columns: seq<NestedColumn>, columns': seq<NestedColumn>)
    requires multiset(Flatten(columns)) == multiset(Flatten(columns')) && RefsValid(cars, columns)
    ensures RefsValid(cars, columns')
  {
    forall k | 0 <= k < |cars| ensures cars[k].columnId in ColumnIds(Flatten(columns')) {
      var flat := Flatten(columns);
      var j :| 0 <= j < |flat| && ColumnIds(flat)[j] == cars[k].columnId;
      assert flat[j] in multiset(Flatten(columns'));
      var flat' := Flatten(columns');
      var j' :| 0 <= j' < |flat'| && flat'[j'] == flat[j];
      assert ColumnIds(flat')[j'] == cars[k].columnId;
    }
  }

  /** Hovering never makes a car name a column that does not exist. */
  lemma DragOverKeepsRefs(cars: seq<Car>, columns: seq<NestedColumn>, active: DragEntry, over: Option<DragEntry>)
    requires RefsValid(cars, columns) && HoverTargetsColumn(over, columns)
    ensures RefsValid(CarsAfterDragOver(cars, active, over), columns)
  {
    if over.Some? && active.id != over.value.id && HasDraggableData(Some(active))
       && HasDraggableData(over) && active.data.CarPayload?
    {
      var ids := CarIds(cars);
      if over.value.data.CarPayload? {
        if active.id in ids && over.value.id in ids {
          var a, o := IndexOf(ids, active.id).value, IndexOf(ids, over.value.id).value;
          if cars[a].columnId != cars[o].columnId {
            CarOverCarAcross(cars, active.id, over.value.id, a, o);
            RefsValidUpdate(cars, a, cars[a].(columnId := cars[o].columnId), columns);
            RefsValidPermutation(CarOverCar(cars, active.id, over.value.id),
                                 cars[a := cars[a].(columnId := cars[o].columnId)], columns);
          } else {
            CarOverCarWithin(cars, active.id, over.value.id, a, o);
            RefsValidPermutation(CarOverCar(cars, active.id, over.value.id), cars, columns);
          }
        }
      } else if active.id in ids {
        CarOverColumnReassigns(cars, active.id, over.value.id);
      }
    }
  }

  /** Dropping never makes a car name a column that does not exist. */
  lemma DragEndKeepsRefs(cars: seq<Car>, columns: seq<NestedColumn>, active: DragEntry, over: Option<DragEntry>)
    requires RefsValid(cars, columns) && TargetsColumn(over, columns)
    ensures RefsValid(CarsAfterDragEnd(cars, active, over), ColumnsAfterDragEnd(columns, active, over))
  {
    if DropCommits(active, over) && active.data.ColumnPayload? {
      ColumnDropKeepsFlatColumns(columns, active.id, over.value.id);
      RefsValidColumns(cars, columns, ColumnsAfterDragEnd(columns, active, over));
    } else if DropCommits(active, over) && active.data.CarPayload? {
      var payload := active.data.car;
      if payload.columnId != ResolveDestination(over.value) {
        CarDropReassigns(cars, active.id, payload, over.value);
      } else {
        CarDropRelocates(cars, active.id, payload, over.value);
        RefsValidPermutation(CarDrop(cars, active.id, payload, over.value), cars, columns);
      }
    }
  }
}
