/** The days a branch's facts belong to its tenant. */
module Reporting {
  import opened Wrappers

  /** Both bounds are inclusive and optional. */
  datatype Window = Window(start: Option<int>, end: Option<int>) {

    predicate Covers(day: int) {
      !((start.Some? && day < start.value) || (end.Some? && end.value < day))
    }

    /** Whether some day of [first, last] is reported on. */
    predicate Meets(first: int, last: int) {
      var low := if start.Some? && first < start.value then start.value else first;
      var high := if end.Some? && end.value < last then end.value else last;
      low <= high
    }
  }
}
