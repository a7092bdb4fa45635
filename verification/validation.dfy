/**
  Batch validation: every row must carry a non-empty FirstName and a
  non-empty Phone, otherwise the whole batch is refused.
 */
module Validation {

  import opened ListTypes

  /** The test the controller applies to each row before distributing. */
  predicate ValidRow(row: Row)
  {
    HasValue(row, FirstNameColumn) && HasValue(row, PhoneColumn)
  }

  predicate AllValid(rows: seq<Row>)
  {
    forall i :: 0 <= i < |rows| ==> ValidRow(rows[i])
  }

  /**
    The position of the first row the validation loop stops at, or None
    when it runs to the end.
   */
  function FirstInvalid(rows: seq<Row>): (r: Option<nat>)
    ensures r.None? <==> AllValid(rows)
    ensures r.Some? ==> r.value < |rows| && !ValidRow(rows[r.value])
    ensures r.Some? ==> forall i :: 0 <= i < r.value ==> ValidRow(rows[i])
  {
    if |rows| == 0 then None
    else if !ValidRow(rows[0]) then Some(0)
    else
      match FirstInvalid(rows[1..])
      case None => None
      case Some(i) => Some(i + 1)
  }
}
