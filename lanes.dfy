/** Column membership: a column's cards are the cars whose `columnId` is the column's id,
    taken in global order (`cars.filter((car) => car.columnId === col.id)`, KanbanBoard.tsx). */
module Lanes {
  import opened BoardTypes
  import opened Sortable

  /** The lane of column `columnId`. */
  function CarsIn(cars: seq<Car>, columnId: Id): seq<Car>
  {
    if cars == [] then []
    else (if cars[0].columnId == columnId then [cars[0]] else []) + CarsIn(cars[1..], columnId)
  }

  /** A lane holds exactly the cars of that column, and no more cars than the board. */
  lemma {:induction false} LaneMembers(cars: seq<Car>, columnId: Id)
    ensures forall car :: car in CarsIn(cars, columnId) <==> car in cars && car.columnId == columnId
    ensures |CarsIn(cars, columnId)| <= |cars|
  {
    if cars != [] {
      LaneMembers(cars[1..], columnId);
      assert cars == [cars[0]] + cars[1..];
    }
  }

  /** `a` is obtained from `b` by deleting elements (relative order kept). */
  predicate IsSubsequence<T(==)>(a: seq<T>, b: seq<T>)
    decreases |b|
  {
    if a == [] then true
    else if b == [] then false
    else if a[0] == b[0] then IsSubsequence(a[1..], b[1..])
    else IsSubsequence(a, b[1..])
  }

  /** A lane lists its cards in the same relative order as the global array. */
  lemma {:induction false} LaneKeepsGlobalOrder(cars: seq<Car>, columnId: Id)
    ensures IsSubsequence(CarsIn(cars, columnId), cars)
  {
    if cars != [] {
      LaneKeepsGlobalOrder(cars[1..], columnId);
      var lane := CarsIn(cars, columnId);
      if cars[0].columnId == columnId {
        assert lane[0] == cars[0] && lane[1..] == CarsIn(cars[1..], columnId);
      } else {
        assert lane == CarsIn(cars[1..], columnId);
        if lane != [] {
          LaneMembers(cars[1..], columnId);
          assert lane[0] in lane;
          assert lane[0] != cars[0];
        }
      }
    }
  }

  lemma {:induction false} CarsInAppend(a: seq<Car>, b: seq<Car>, columnId: Id)
    ensures CarsIn(a + b, columnId) == CarsIn(a, columnId) + CarsIn(b, columnId)
  {
    if a == [] {
      assert a + b == b;
    } else {
      assert (a + b)[0] == a[0] && (a + b)[1..] == a[1..] + b;
      CarsInAppend(a[1..], b, columnId);
    }
  }

  /** Splits a lane around position i. */
  lemma CarsInSplit(cars: seq<Car>, i: nat, columnId: Id)
    requires i < |cars|
    ensures CarsIn(cars, columnId) ==
            CarsIn(cars[..i], columnId) + CarsIn([cars[i]], columnId) + CarsIn(cars[i + 1..], columnId)
  {
    assert cars == cars[..i] + [cars[i]] + cars[i + 1..];
    CarsInAppend(cars[..i] + [cars[i]], cars[i + 1..], columnId);
    CarsInAppend(cars[..i], [cars[i]], columnId);
  }

  /** The lane of `front + [car] + back`, piece by piece. */
  lemma CarsInInsert(front: seq<Car>, car: Car, back: seq<Car>, columnId: Id)
    ensures CarsIn(front + [car] + back, columnId) ==
            CarsIn(front, columnId) + CarsIn([car], columnId) + CarsIn(back, columnId)
    ensures CarsIn(front + back, columnId) == CarsIn(front, columnId) + CarsIn(back, columnId)
  {
    CarsInAppend(front + [car], back, columnId);
    CarsInAppend(front, [car], columnId);
    CarsInAppend(front, back, columnId);
  }

  /** Taking `car` out from between `pre` and `post` and putting it back between `front` and
      `back` (same remaining cars) keeps every lane's size, and every lane but its own. */
  lemma ReinsertLanes(pre: seq<Car>, post: seq<Car>, front: seq<Car>, back: seq<Car>,
                      car: Car, columnId: Id)
    requires pre + post == front + back
    ensures |CarsIn(front + [car] + back, columnId)| == |CarsIn(pre + [car] + post, columnId)|
    ensures car.columnId != columnId ==>
              CarsIn(front + [car] + back, columnId) == CarsIn(pre + [car] + post, columnId)
  {
    CarsInInsert(front, car, back, columnId);
    CarsInInsert(pre, car, post, columnId);
    var mid := CarsIn([car], columnId);
    assert [car][1..] == [];
    if car.columnId != columnId {
      assert mid == [];
      calc {
        CarsIn(front + [car] + back, columnId);
        CarsIn(front, columnId) + mid + CarsIn(back, columnId);
        CarsIn(front, columnId) + CarsIn(back, columnId);
        CarsIn(front + back, columnId);
        CarsIn(pre, columnId) + CarsIn(post, columnId);
        CarsIn(pre, columnId) + mid + CarsIn(post, columnId);
        CarsIn(pre + [car] + post, columnId);
      }
    }
  }

  /** Relocating one car disturbs no other column's lane and changes no lane's size. */
  lemma ArrayMoveLanes(cars: seq<Car>, from: nat, to: nat, columnId: Id)
    requires from < |cars| && to < |cars|
    ensures |CarsIn(ArrayMove(cars, from, to), columnId)| == |CarsIn(cars, columnId)|
    ensures cars[from].columnId != columnId ==>
              CarsIn(ArrayMove(cars, from, to), columnId) == CarsIn(cars, columnId)
  {
    var rest := cars[..from] + cars[from + 1..];
    ArrayMoveSplit(cars, from, to);
    ReinsertLanes(cars[..from], cars[from + 1..], rest[..to], rest[to..], cars[from], columnId);
  }

  /** Replacing the car at position i moves it from its old lane to its new lane and leaves
      every other lane as it was. */
  lemma UpdateLanes(cars: seq<Car>, i: nat, car: Car, columnId: Id)
    requires i < |cars|
    ensures |CarsIn(cars[i := car], columnId)| + (if cars[i].columnId == columnId then 1 else 0)
            == |CarsIn(cars, columnId)| + (if car.columnId == columnId then 1 else 0)
    ensures cars[i].columnId != columnId && car.columnId != columnId ==>
              CarsIn(cars[i := car], columnId) == CarsIn(cars, columnId)
  {
    var updated := cars[i := car];
    assert updated[..i] == cars[..i] && updated[i + 1..] == cars[i + 1..] && updated[i] == car;
    CarsInSplit(cars, i, columnId);
    CarsInSplit(updated, i, columnId);
  }
}
