/** When a schedule slot covers a moment: the interval test in Python and its mirror in SQL. */
module Shifts {
  import opened Wrappers
  import opened Clock

  /** Slot times are microseconds since midnight; a slot without both times covers nothing. */
  datatype Slot = Slot(staff: int, day: int, from: Option<int>, to: Option<int>)

  predicate ValidSlot(s: Slot) {
    && (s.from.Some? ==> 0 <= s.from.value < DAY)
    && (s.to.Some? ==> 0 <= s.to.value < DAY)
  }

  /** The slot runs from `from` on its day to `to`, on the next day when `to` is not after `from`. */
  predicate CoversMoment(s: Slot, moment: int) {
    if s.from.None? || s.to.None? then false
    else
      var endDay := if s.to.value <= s.from.value then s.day + 1 else s.day;
      s.day * DAY + s.from.value <= moment < endDay * DAY + s.to.value
  }

  predicate RegularShift(s: Slot, day: int, time: int)
    requires s.from.Some? && s.to.Some?
  {
    s.from.value < s.to.value && s.day == day && s.from.value <= time < s.to.value
  }

  predicate OvernightShift(s: Slot, day: int, time: int)
    requires s.from.Some? && s.to.Some?
  {
    && s.to.value <= s.from.value
    && ((s.day == day && s.from.value <= time) || (s.day != day && time < s.to.value))
  }

  /** The SQL predicate, over the moment's local day and time of day. */
  predicate SqlCovers(s: Slot, day: int, time: int) {
    && (s.day == day || s.day == day - 1)
    && s.from.Some? && s.to.Some?
    && (RegularShift(s, day, time) || OvernightShift(s, day, time))
  }

  lemma SqlAgreesWithInterval(s: Slot, moment: int)
    requires ValidSlot(s)
    ensures SqlCovers(s, DayOf(moment), moment % DAY) <==> CoversMoment(s, moment)
  {
    CoveringDays(s, moment);
    assert moment == DayOf(moment) * DAY + moment % DAY;
  }

  /** Only slots of the moment's day and the day before can cover it. */
  lemma CoveringDays(s: Slot, moment: int)
    requires ValidSlot(s)
    ensures CoversMoment(s, moment) ==> s.day == DayOf(moment) || s.day == DayOf(moment) - 1
  {
    var d := DayOf(moment);
    assert d * DAY <= moment < (d + 1) * DAY;
  }
}
