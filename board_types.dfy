/** The values the kanban board works on: columns (nested and flat), cars and drag payloads. */
module BoardTypes {

  datatype Option<T> = None | Some(value: T)

  /** dnd-kit's `UniqueIdentifier`, in its string form. Column ids and car ids share this type. */
  type Id = string

  /** A column as it is rendered and dragged (`Column` in BoardColumn.tsx). */
  datatype Column = Column(id: Id, title: string)

  /** The optional `children` field of a nested column: absent, or present (possibly empty). */
  datatype Subcolumns = Absent | Present(nodes: seq<NestedColumn>)

  /** A node of the column forest (`NestedColumn` in KanbanBoard.tsx). */
  datatype NestedColumn = NestedColumn(id: Id, title: string, children: Subcolumns)

  /** A card on the board (`Car` in CarCard.tsx); it belongs to the column named by `columnId`. */
  datatype Car = Car(id: Id, columnId: Id, content: string)

  /** Any discriminant other than the two the board understands, e.g. TaskCard.tsx's "Task". */
  type ForeignTag = t: string | t != "Column" && t != "Car" witness "Task"

  /** The `data.current` of a dnd-kit entry: a column payload, a car payload,
      a payload with some other tag, or no payload at all. */
  datatype Payload =
    | ColumnPayload(column: Column)
    | CarPayload(car: Car)
    | ForeignPayload(tag: ForeignTag)
    | NoPayload

  /** A dnd-kit `Active` or `Over` entry: its id and its attached payload. */
  datatype DragEntry = DragEntry(id: Id, data: Payload)

  function TopIds(columns: seq<NestedColumn>): seq<Id>
  {
    seq(|columns|, k requires 0 <= k < |columns| => columns[k].id)
  }

  function ColumnIds(flat: seq<Column>): seq<Id>
  {
    seq(|flat|, k requires 0 <= k < |flat| => flat[k].id)
  }

  function CarIds(cars: seq<Car>): seq<Id>
  {
    seq(|cars|, k requires 0 <= k < |cars| => cars[k].id)
  }
}
