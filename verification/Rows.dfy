/** Looking a row up by its id in a list that may hold an id twice. */
module Rows {
  import opened Wrappers

  function FirstWithId<T>(rows: seq<T>, idOf: T -> int, id: int): (i: Option<nat>)
    ensures i.Some? ==> i.value < |rows| && idOf(rows[i.value]) == id && forall j :: 0 <= j < i.value ==> idOf(rows[j]) != id
    ensures i.None? ==> forall j :: 0 <= j < |rows| ==> idOf(rows[j]) != id
  {
    if rows == [] then None
    else
      match FirstWithId(rows[..|rows| - 1], idOf, id)
      case Some(i) => Some(i)
      case None => if idOf(rows[|rows| - 1]) == id then Some(|rows| - 1) else None
  }

  predicate UniqueIds<T>(rows: seq<T>, idOf: T -> int) {
    forall i, j :: 0 <= i < j < |rows| ==> idOf(rows[i]) != idOf(rows[j])
  }
}
