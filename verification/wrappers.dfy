/** The optional-value datatype used for "this cell did not parse" and
    "this row is dropped" throughout the model. */
module Wrappers {

  datatype Option<+T> = None | Some(value: T)

  /** An option as a sequence of at most one element: the record of a
      row that was kept, or nothing for a dropped row. */
  function Kept<T(!new)>(o: Option<T>): (s: seq<T>)
    ensures |s| == 1 <==> o.Some?
    ensures |s| <= 1
    ensures forall x :: x in s <==> o == Some(x)
  {
    if o.Some? then [o.value] else []
  }
}
