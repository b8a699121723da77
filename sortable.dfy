/** The two array helpers the engine relies on: `arrayMove` (from @dnd-kit/sortable) and
    `Array.prototype.findIndex` on a sequence of ids. */
module Sortable {
  import opened BoardTypes

  /** Relocation: remove the element at `from`, then insert it at `to` of what is left.
      The moved element lands at `to`; the elements it passes shift by one slot. */
  function ArrayMove<T>(s: seq<T>, from: nat, to: nat): (r: seq<T>)
    requires from < |s| && to < |s|
    ensures |r| == |s|
    ensures r[to] == s[from]
    ensures forall k :: 0 <= k < |s| && k < from && k < to ==> r[k] == s[k]
    ensures forall k :: 0 <= k < |s| && k > from && k > to ==> r[k] == s[k]
    ensures forall k :: from <= k < to ==> r[k] == s[k + 1]
    ensures forall k :: to < k <= from ==> r[k] == s[k - 1]
    ensures from == to ==> r == s
  {
    var rest := s[..from] + s[from + 1..];
    rest[..to] + [s[from]] + rest[to..]
  }

  /** The pieces of a relocation: the input is split around `from`, and what is left is
      split around `to`, where the moved element is put back. */
  lemma ArrayMoveSplit<T>(s: seq<T>, from: nat, to: nat)
    requires from < |s| && to < |s|
    ensures var rest := s[..from] + s[from + 1..];
            && s == s[..from] + [s[from]] + s[from + 1..]
            && rest == rest[..to] + rest[to..]
            && ArrayMove(s, from, to) == rest[..to] + [s[from]] + rest[to..]
  {
    var rest := s[..from] + s[from + 1..];
    assert s == s[..from] + [s[from]] + s[from + 1..];
    assert rest == rest[..to] + rest[to..];
  }

  /** A relocation is a permutation: no element is added or lost. */
  lemma ArrayMovePermutes<T>(s: seq<T>, from: nat, to: nat)
    requires from < |s| && to < |s|
    ensures multiset(ArrayMove(s, from, to)) == multiset(s)
  {
    var rest := s[..from] + s[from + 1..];
    ArrayMoveSplit(s, from, to);
    calc {
      multiset(ArrayMove(s, from, to));
      multiset(rest[..to]) + multiset([s[from]]) + multiset(rest[to..]);
      multiset(rest) + multiset([s[from]]);
      multiset(s);
    }
  }

  /** The first position holding `x`, or None if there is none (`findIndex` returning -1). */
  function IndexOf<T(==)>(s: seq<T>, x: T): (r: Option<nat>)
    ensures r.Some? ==> r.value < |s| && s[r.value] == x && x !in s[..r.value]
    ensures r.None? <==> x !in s
  {
    if s == [] then None
    else if s[0] == x then Some(0)
    else
      match IndexOf(s[1..], x)
      case None => None
      case Some(k) => Some(k + 1)
  }
}
