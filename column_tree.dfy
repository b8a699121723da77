/** `flattenColumns` (KanbanBoard.tsx): the depth-first, parent-before-children projection of
    the nested column forest, with every `children` field stripped. */
module ColumnTree {
  import opened BoardTypes

  /** `{ id: col.id, title: col.title }`: the node without its children. */
  function Strip(col: NestedColumn): Column
  {
    Column(col.id, col.title)
  }

  /** The children of a node; an absent `children` field contributes none. */
  function Kids(col: NestedColumn): seq<NestedColumn>
  {
    match col.children
    case Absent => []
    case Present(nodes) => nodes
  }

  /** `cols.flatMap(col => col.children ? [strip(col), ...flatten(col.children)] : [col])` */
  function Flatten(cols: seq<NestedColumn>): seq<Column>
  {
    if cols == [] then []
    else
      var col := cols[0];
      (match col.children
       case Present(nodes) => [Strip(col)] + Flatten(nodes)
       case Absent => [Strip(col)])
      + Flatten(cols[1..])
  }

  /** Number of nodes of a forest, at every depth. */
  function Size(cols: seq<NestedColumn>): nat
  {
    if cols == [] then 0
    else
      1 + (match cols[0].children
           case Present(nodes) => Size(nodes)
           case Absent => 0)
      + Size(cols[1..])
  }

  /** One unfolding of Flatten, phrased with Kids. */
  lemma FlattenCons(col: NestedColumn, rest: seq<NestedColumn>)
    ensures Flatten([col] + rest) == [Strip(col)] + Flatten(Kids(col)) + Flatten(rest)
  {
    var cols := [col] + rest;
    assert cols[0] == col && cols[1..] == rest;
  }

  lemma {:induction false} FlattenAppend(a: seq<NestedColumn>, b: seq<NestedColumn>)
    ensures Flatten(a + b) == Flatten(a) + Flatten(b)
  {
    if a == [] {
      assert a + b == b;
    } else {
      assert a + b == [a[0]] + (a[1..] + b);
      assert a == [a[0]] + a[1..];
      FlattenCons(a[0], a[1..] + b);
      FlattenCons(a[0], a[1..]);
      FlattenAppend(a[1..], b);
    }
  }

  lemma {:induction false} SizeAppend(a: seq<NestedColumn>, b: seq<NestedColumn>)
    ensures Size(a + b) == Size(a) + Size(b)
  {
    if a == [] {
      assert a + b == b;
    } else {
      assert (a + b)[0] == a[0] && (a + b)[1..] == a[1..] + b;
      SizeAppend(a[1..], b);
    }
  }

  /** The output has exactly one entry per node of the forest. */
  lemma {:induction false} FlattenSize(cols: seq<NestedColumn>)
    ensures |Flatten(cols)| == Size(cols)
  {
    if cols != [] {
      match cols[0].children {
        case Present(nodes) => FlattenSize(nodes);
        case Absent =>
      }
      FlattenSize(cols[1..]);
    }
  }

  /** Pre-order: the i-th top-level node comes after every earlier sibling's subtree, and is
      followed at once by its own descendants, then by the later siblings' subtrees. */
  lemma FlattenPreOrder(cols: seq<NestedColumn>, i: nat)
    requires i < |cols|
    ensures Flatten(cols) ==
            Flatten(cols[..i]) + [Strip(cols[i])] + Flatten(Kids(cols[i])) + Flatten(cols[i + 1..])
    ensures Flatten(cols)[|Flatten(cols[..i])|] == Strip(cols[i])
  {
    assert cols == cols[..i] + ([cols[i]] + cols[i + 1..]);
    FlattenAppend(cols[..i], [cols[i]] + cols[i + 1..]);
    FlattenCons(cols[i], cols[i + 1..]);
  }

  /** An independent definition of depth-first pre-order: a work list whose head is emitted
      and replaced by its children. */
  function Walk(work: seq<NestedColumn>): seq<Column>
    decreases Size(work)
  {
    if work == [] then []
    else
      SizeAppend(Kids(work[0]), work[1..]);
      [Strip(work[0])] + Walk(Kids(work[0]) + work[1..])
  }

  lemma {:induction false} FlattenIsWalk(cols: seq<NestedColumn>)
    ensures Flatten(cols) == Walk(cols)
    decreases Size(cols)
  {
    if cols != [] {
      var col := cols[0];
      SizeAppend(Kids(col), cols[1..]);
      FlattenIsWalk(Kids(col) + cols[1..]);
      FlattenAppend(Kids(col), cols[1..]);
      assert cols == [col] + cols[1..];
      FlattenCons(col, cols[1..]);
    }
  }

  /** A flat column list read back as a forest whose nodes have no `children` field. */
  function AsForest(flat: seq<Column>): seq<NestedColumn>
  {
    seq(|flat|, k requires 0 <= k < |flat| => NestedColumn(flat[k].id, flat[k].title, Absent))
  }

  ghost predicate IsFlat(cols: seq<NestedColumn>)
  {
    forall k :: 0 <= k < |cols| ==> cols[k].children.Absent?
  }

  /** Flattening a forest of childless nodes gives back the same columns, in the same order. */
  lemma {:induction false} FlattenOfFlat(flat: seq<Column>)
    ensures Flatten(AsForest(flat)) == flat
  {
    if flat != [] {
      FlattenOfFlat(flat[1..]);
      assert AsForest(flat)[1..] == AsForest(flat[1..]);
    }
  }

  /** Flattening is the identity on a forest in which no node has children. */
  lemma {:induction false} FlattenFlatIdentity(cols: seq<NestedColumn>)
    requires IsFlat(cols)
    ensures AsForest(Flatten(cols)) == cols
  {
    if cols != [] {
      FlattenFlatIdentity(cols[1..]);
      assert Flatten(cols) == [Strip(cols[0])] + Flatten(cols[1..]);
      FlattenSize(cols[1..]);
    }
  }

  /** Idempotence: the flat projection, read back as a forest, flattens to itself. */
  lemma FlattenIdempotent(cols: seq<NestedColumn>)
    ensures IsFlat(AsForest(Flatten(cols)))
    ensures Flatten(AsForest(Flatten(cols))) == Flatten(cols)
  {
    FlattenOfFlat(Flatten(cols));
  }
}
