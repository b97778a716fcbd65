/** The result of a read or a parse that may find nothing. */
module Wrappers {
  datatype Option<+T> = None | Some(value: T)

  /** The members of a set, each once, in some order. */
  method InOrder<T(==)>(ids: set<T>) returns (order: seq<T>)
    ensures forall i, j :: 0 <= i < j < |order| ==> order[i] != order[j]
    ensures forall i :: 0 <= i < |order| ==> order[i] in ids
  {
    order := [];
    var left := ids;
    while left != {}
      invariant left <= ids
      invariant forall i, j :: 0 <= i < j < |order| ==> order[i] != order[j]
      invariant forall i :: 0 <= i < |order| ==> order[i] in ids && order[i] !in left
      decreases |left|
    {
      var id :| id in left;
      order := order + [id];
      left := left - {id};
    }
  }
}
