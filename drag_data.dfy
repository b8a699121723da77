/** Classification of drag entries by the discriminant tag their payload carries
    (`hasDraggableData` and the destination-column resolution of `onDragEnd`, KanbanBoard.tsx). */
module DragData {
  import opened BoardTypes

  /** `data?.type`: the payload's tag, or None when there is no payload. */
  function Tag(data: Payload): Option<string>
  {
    match data
    case ColumnPayload(_) => Some("Column")
    case CarPayload(_) => Some("Car")
    case ForeignPayload(tag) => Some(tag)
    case NoPayload => None
  }

  /** An entry is draggable data exactly when it exists and carries a column or a car. */
  function HasDraggableData(entry: Option<DragEntry>): (r: bool)
    ensures r <==> entry.Some? && (entry.value.data.ColumnPayload? || entry.value.data.CarPayload?)
  {
    match entry
    case None => false
    case Some(e) => Tag(e.data) == Some("Column") || Tag(e.data) == Some("Car")
  }

  /** The column a dropped car goes to: a column target names itself, a car target names the
      column recorded in its payload, an unclassified target is taken as a column id. */
  function ResolveDestination(over: DragEntry): (columnId: Id)
    ensures over.data.CarPayload? ==> columnId == over.data.car.columnId
    ensures !over.data.CarPayload? ==> columnId == over.id
  {
    if HasDraggableData(Some(over)) then
      if Tag(over.data) == Some("Column") then over.id else over.data.car.columnId
    else over.id
  }
}
