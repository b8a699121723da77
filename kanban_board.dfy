/** The `KanbanBoard` component's state and its three drag handlers, with the board's
    initial configuration (`defaultCols`, `initialCars`). */
module KanbanBoard {
  import opened BoardTypes
  import opened Sortable
  import opened ColumnTree
  import opened Lanes
  import opened DragData
  import opened Reconcile

  const DefaultCols: seq<NestedColumn> := [
    NestedColumn("list-of-cars", "List of Cars", Absent),
    NestedColumn("american-cars", "American Cars", Absent),
    NestedColumn("european-cars", "European Cars", Present([
      NestedColumn("german-cars", "German Cars", Absent),
      NestedColumn("italian-cars", "Italian Cars", Absent),
      NestedColumn("swedish-cars", "Swedish Cars", Absent)])),
    NestedColumn("asian-cars", "Asian Cars", Present([
      NestedColumn("japanese-cars", "Japanese Cars", Absent),
      NestedColumn("korean-cars", "Korean Cars", Absent)]))
  ]

  const InitialCars: seq<Car> := [
    Car("mb", "german-cars", "Mercedes Benz"),
    Car("vw", "list-of-cars", "VW"),
    Car("toyota", "japanese-cars", "Toyota"),
    Car("honda", "korean-cars", "Honda"),
    Car("ford", "list-of-cars", "Ford"),
    Car("ferrari", "list-of-cars", "Ferrari"),
    Car("bmw", "german-cars", "BMW"),
    Car("porsche", "list-of-cars", "Porsche"),
    Car("audi", "list-of-cars", "Audi"),
    Car("nissan", "list-of-cars", "Nissan"),
    Car("tesla", "american-cars", "Tesla"),
    Car("chevrolet", "american-cars", "Chevrolet"),
    Car("lamborghini", "italian-cars", "Lamborghini"),
    Car("volvo", "swedish-cars", "Volvo")
  ]

  /** The component's four pieces of state; each setter becomes a field assignment. */
  class Board {
    var columns: seq<NestedColumn>
    var cars: seq<Car>
    var activeColumn: Option<Column>
    var activeCar: Option<Car>

    /** Every car belongs to a column of the board. */
    ghost predicate Consistent()
      reads this
    {
      RefsValid(cars, columns)
    }

    constructor ()
      ensures columns == DefaultCols && cars == InitialCars
      ensures activeColumn == None && activeCar == None
      ensures Consistent()
    {
      columns := DefaultCols;
      cars := InitialCars;
      activeColumn := None;
      activeCar := None;
      new;
      InitialBoardConsistent();
    }

    /** Records the lifted column or car for the overlay; nothing else changes. */
    method OnDragStart(active: DragEntry)
      modifies this
      ensures columns == old(columns) && cars == old(cars)
      ensures active.data.ColumnPayload? ==>
                activeColumn == Some(active.data.column) && activeCar == old(activeCar)
      ensures active.data.CarPayload? ==>
                activeCar == Some(active.data.car) && activeColumn == old(activeColumn)
      ensures !HasDraggableData(Some(active)) ==>
                activeColumn == old(activeColumn) && activeCar == old(activeCar)
      ensures old(activeColumn).None? && old(activeCar).None? ==> activeColumn.None? || activeCar.None?
    {
      if !HasDraggableData(Some(active)) {
        return;
      }
      var data := active.data;
      if data.ColumnPayload? {
        activeColumn := Some(data.column);
        return;
      }
      if data.CarPayload? {
        activeCar := Some(data.car);
        return;
      }
    }

    /** Provisionally reassigns and relocates the active car while it hovers. */
    method OnDragOver(active: DragEntry, over: Option<DragEntry>)
      modifies this
      ensures cars == CarsAfterDragOver(old(cars), active, over)
      ensures columns == old(columns)
      ensures activeColumn == old(activeColumn) && activeCar == old(activeCar)
      ensures old(Consistent()) && HoverTargetsColumn(over, columns) ==> Consistent()
    {
      if RefsValid(cars, columns) && HoverTargetsColumn(over, columns) {
        DragOverKeepsRefs(cars, columns, active, over);
      }
      if over.None? {
        return;
      }
      var target := over.value;
      if active.id == target.id {
        return;
      }
      if !HasDraggableData(Some(active)) || !HasDraggableData(over) {
        return;
      }
      var isActiveACar := active.data.CarPayload?;
      var isOverACar := target.data.CarPayload?;
      if !isActiveACar {
        return;
      }
      if isOverACar {
        var activeIndex := IndexOf(CarIds(cars), active.id);
        var overIndex := IndexOf(CarIds(cars), target.id);
        if activeIndex.Some? && overIndex.Some? {
          var a, o := activeIndex.value, overIndex.value;
          if cars[a].columnId != cars[o].columnId {
            cars := cars[a := cars[a].(columnId := cars[o].columnId)];
            if o > 0 {
              cars := ArrayMove(cars, a, o - 1);
            }
          } else {
            cars := ArrayMove(cars, a, o);
          }
        }
      }
      var isOverAColumn := target.data.ColumnPayload?;
      if isOverAColumn {
        var activeIndex := IndexOf(CarIds(cars), active.id);
        if activeIndex.Some? {
          var a := activeIndex.value;
          cars := ArrayMove(cars[a := cars[a].(columnId := target.id)], a, a);
        }
      }
    }

    /** Clears the overlay, then commits the column relocation or the car's column change or
      reorder. A drop with no target, or onto itself, leaves the board as it is, including
      any provisional change made while hovering. */
    method OnDragEnd(active: DragEntry, over: Option<DragEntry>)
      modifies this
      ensures activeColumn == None && activeCar == None
      ensures columns == ColumnsAfterDragEnd(old(columns), active, over)
      ensures cars == CarsAfterDragEnd(old(cars), active, over)
      ensures over.None? || active.id == over.value.id ==> columns == old(columns) && cars == old(cars)
      ensures old(Consistent()) && TargetsColumn(over, old(columns)) ==> Consistent()
    {
      if RefsValid(cars, columns) && TargetsColumn(over, columns) {
        DragEndKeepsRefs(cars, columns, active, over);
      }
      activeColumn := None;
      activeCar := None;
      if over.None? {
        return;
      }
      var target := over.value;
      if !HasDraggableData(Some(active)) {
        return;
      }
      if active.id == target.id {
        return;
      }
      if active.data.ColumnPayload? {
        var activeColumnIndex := IndexOf(TopIds(columns), active.id);
        var overColumnIndex := IndexOf(TopIds(columns), target.id);
        if activeColumnIndex.Some? && overColumnIndex.Some? {
          columns := ArrayMove(columns, activeColumnIndex.value, overColumnIndex.value);
        }
      } else if active.data.CarPayload? {
        var newColumnId := ResolveDestination(target);
        var oldColumnId := active.data.car.columnId;
        if oldColumnId != newColumnId {
          cars := CommitColumnChange(cars, active.id, newColumnId);
        } else {
          var oldIndex := IndexOf(CarIds(cars), active.id);
          var newIndex := IndexOf(CarIds(cars), target.id);
          if oldIndex.Some? && newIndex.Some? {
            cars := ArrayMove(cars, oldIndex.value, newIndex.value);
          }
        }
      }
    }
  }

  // ---------------------------------------------------------------------------------------
  // The initial configuration and example drags on it

  function ColumnEntry(id: Id, title: string): DragEntry
  {
    DragEntry(id, ColumnPayload(Column(id, title)))
  }

  function CarEntry(car: Car): DragEntry
  {
    DragEntry(car.id, CarPayload(car))
  }

  /** The flat projection of the default forest, parent before children. */
  lemma DefaultFlatOrder()
    ensures ColumnIds(Flatten(DefaultCols)) ==
            ["list-of-cars", "american-cars", "european-cars", "german-cars", "italian-cars",
             "swedish-cars", "asian-cars", "japanese-cars", "korean-cars"]
  {
  }

  /** Every initial car names a column of the default forest. */
  lemma InitialBoardConsistent()
    ensures RefsValid(InitialCars, DefaultCols)
  {
    DefaultFlatOrder();
  }

  /** Dropping American on Asian gives [List, European, Asian, American]. */
  lemma AmericanDroppedOnAsian()
    ensures TopIds(ColumnsAfterDragEnd(DefaultCols, ColumnEntry("american-cars", "American Cars"),
                                       Some(ColumnEntry("asian-cars", "Asian Cars"))))
            == ["list-of-cars", "european-cars", "asian-cars", "american-cars"]
  {
    var ids := TopIds(DefaultCols);
    assert ids == ["list-of-cars", "american-cars", "european-cars", "asian-cars"];
    assert IndexOf(ids, "american-cars") == Some(1);
    assert IndexOf(ids, "asian-cars") == Some(3);
    var moved := ArrayMove(DefaultCols, 1, 3);
    assert moved == [DefaultCols[0], DefaultCols[2], DefaultCols[3], DefaultCols[1]];
  }

  /** Hovering `mb` over `vw` moves it into the list column, immediately before `vw`. */
  lemma MercedesOverVolkswagen()
    ensures var r := CarsAfterDragOver(InitialCars, CarEntry(InitialCars[0]), Some(CarEntry(InitialCars[1])));
            r[0] == Car("mb", "list-of-cars", "Mercedes Benz") && r[1] == InitialCars[1]
  {
  }

  /** Dropping `toyota` on the German column changes its column and nothing else. */
  lemma ToyotaDroppedOnGerman()
    ensures var r := CarsAfterDragEnd(InitialCars, CarEntry(InitialCars[2]),
                                      Some(ColumnEntry("german-cars", "German Cars")));
            r == InitialCars[2 := Car("toyota", "german-cars", "Toyota")]
  {
  }

  /** A cancelled drag keeps the provisional column change made while hovering. */
  method CancelledDragKeepsHoverChange()
  {
    var board := new Board();
    var mb := CarEntry(InitialCars[0]);
    board.OnDragStart(mb);
    assert board.activeCar == Some(InitialCars[0]);
    board.OnDragOver(mb, Some(CarEntry(InitialCars[1])));
    MercedesOverVolkswagen();
    assert board.cars[0].columnId == "list-of-cars";
    board.OnDragEnd(mb, None);
    assert board.activeCar == None && board.activeColumn == None;
    assert board.cars[0].columnId == "list-of-cars";
  }
}
